/** The paginated, filtered view of the ledger (`GET /api/attendance_record`): page
    parameters are clamped, a `WHERE` clause and its parameter list are built by
    successive pushes, and one page of the joined rows is returned, newest first. */
module AttendanceQuery {
  import opened Base
  import opened Text
  import opened Ledger

  // ------------------------------------------------------------------ paging parameters

  /** `Math.max(1, Number(page || 1))`, for numeric input (`None` when absent or empty). */
  function PageParam(p: Option<int>): (r: int)
    ensures r >= 1
    ensures p.Some? && p.value >= 1 ==> r == p.value
    ensures p.None? || p.value < 1 ==> r == 1
  {
    Max(1, p.GetOr(1))
  }

  /** `Math.min(100, Math.max(1, Number(pageSize || 10)))`, for numeric input. */
  function PageSizeParam(p: Option<int>): (r: int)
    ensures 1 <= r <= 100
    ensures p.None? ==> r == 10
    ensures p.Some? && 1 <= p.value <= 100 ==> r == p.value
    ensures p.Some? && p.value < 1 ==> r == 1
    ensures p.Some? && p.value > 100 ==> r == 100
  {
    Min(100, Max(1, p.GetOr(10)))
  }

  /** `(page - 1) * pageSize`: the rows skipped before the requested page. */
  function Offset(page: int, pageSize: int): (r: nat)
    requires page >= 1 && pageSize >= 1
    ensures r + pageSize == page * pageSize
  {
    (page - 1) * pageSize
  }

  // ------------------------------------------------------------------ the WHERE clause

  /** One condition of the `WHERE` clause; `ph` is the number of its `$n` placeholder. */
  datatype Condition =
    | NameLike(ph: nat)       // LOWER(u.name) LIKE $ph
    | DateFrom(ph: nat)       // local check-in date >= $ph
    | DateTo(ph: nat)         // local check-in date <= $ph
    | OnlyOpen                // ar.check_out_time IS NULL

  /** A bound query parameter: a `LIKE` pattern, a calendar day or a number. */
  datatype Param = Pattern(text: string) | DateParam(day: Day) | Number(n: int)

  /** One row of `AttendanceRecord JOIN Users`. */
  datatype Row = Row(id: nat, user: UserId, name: string, checkIn: Instant, checkOut: Option<Instant>, total: Option<int>)

  /** The filter a request asks for, after normalisation: `search` is already trimmed
      and lower-cased, the dates are local calendar days. */
  datatype Filter = Filter(search: string, from: Option<Day>, to: Option<Day>, onlyPresent: bool)

  /** Reference meaning of a filter on one row. The search is bound as `%search%`
      without escaping, so `%`, `_` and `\` in it keep their `LIKE` meaning. */
  predicate Matches(f: Filter, row: Row, cal: Calendar): (b: bool)
    ensures f.search == [] && f.from.None? && f.to.None? && !f.onlyPresent ==> b
    ensures b && f.onlyPresent ==> row.checkOut.None?
  {
    && (f.search == [] || Like(ToLower(row.name), Infix(f.search)))
    && (f.from.Some? ==> cal.dayOf(row.checkIn) >= f.from.value)
    && (f.to.Some? ==> cal.dayOf(row.checkIn) <= f.to.value)
    && (f.onlyPresent ==> row.checkOut.None?)
  }

  /** What the database makes of one condition, reading its placeholder from `params`. */
  predicate Eval(c: Condition, params: seq<Param>, row: Row, cal: Calendar) {
    match c
    case NameLike(ph) =>
      1 <= ph <= |params| && params[ph - 1].Pattern? && Like(ToLower(row.name), params[ph - 1].text)
    case DateFrom(ph) =>
      1 <= ph <= |params| && params[ph - 1].DateParam? && cal.dayOf(row.checkIn) >= params[ph - 1].day
    case DateTo(ph) =>
      1 <= ph <= |params| && params[ph - 1].DateParam? && cal.dayOf(row.checkIn) <= params[ph - 1].day
    case OnlyOpen => row.checkOut.None?
  }

  /** The conjunction `c1 AND c2 AND ...`; an empty list means no `WHERE`. */
  predicate EvalAll(cs: seq<Condition>, params: seq<Param>, row: Row, cal: Calendar) {
    forall i :: 0 <= i < |cs| ==> Eval(cs[i], params, row, cal)
  }

  /** The placeholders the conditions use, in order. */
  function Placeholders(cs: seq<Condition>): seq<nat>
  {
    if cs == [] then []
    else (if cs[0].OnlyOpen? then [] else [cs[0].ph]) + Placeholders(cs[1..])
  }

  /** Placeholders are `$1 .. $k`, numbered in the order their values were pushed. */
  predicate Consecutive(phs: seq<nat>) {
    forall i :: 0 <= i < |phs| ==> phs[i] == i + 1
  }

  /** The clause and its parameters select exactly the rows the filter describes. */
  ghost predicate Means(cs: seq<Condition>, params: seq<Param>, f: Filter) {
    forall row, cal :: EvalAll(cs, params, row, cal) <==> Matches(f, row, cal)
  }

  /** Build the conditions and their parameters by successive pushes, as the route
      does. The result means exactly the requested filter. */
  method BuildWhere(f: Filter) returns (cs: seq<Condition>, params: seq<Param>)
    ensures Consecutive(Placeholders(cs)) && |Placeholders(cs)| == |params|
    ensures Means(cs, params, f)
  {
    cs, params := [], [];
    if f.search != [] {
      params := params + [Pattern(Infix(f.search))];
      PushNumbered(cs, |params| - 1, NameLike(|params|));
      cs := cs + [NameLike(|params|)];
    }
    assert params == SearchParams(f) && cs == SearchConditions(f);
    if f.from.Some? {
      params := params + [DateParam(f.from.value)];
      PushNumbered(cs, |params| - 1, DateFrom(|params|));
      cs := cs + [DateFrom(|params|)];
    }
    assert params == SearchParams(f) + FromParams(f);
    assert cs == SearchConditions(f) + FromConditions(f);
    if f.to.Some? {
      params := params + [DateParam(f.to.value)];
      PushNumbered(cs, |params| - 1, DateTo(|params|));
      cs := cs + [DateTo(|params|)];
    }
    assert params == ExpectedParams(f);
    assert cs == SearchConditions(f) + FromConditions(f) + ToConditions(f);
    if f.onlyPresent {
      PushNumbered(cs, |params|, OnlyOpen);
      cs := cs + [OnlyOpen];
    }
    assert cs == ExpectedConditions(f);
    forall row, cal ensures EvalAll(cs, params, row, cal) <==> Matches(f, row, cal) {
      ExpectedMeaning(f, row, cal);
    }
  }

  /** Pushing a condition numbered after the `n` placeholders so far keeps them
      consecutive. */
  lemma PushNumbered(cs: seq<Condition>, n: nat, c: Condition)
    requires Consecutive(Placeholders(cs)) && |Placeholders(cs)| == n
    requires c.OnlyOpen? || c.ph == n + 1
    ensures Consecutive(Placeholders(cs + [c]))
    ensures |Placeholders(cs + [c])| == if c.OnlyOpen? then n else n + 1
  {
    PlaceholdersConcat(cs, [c]);
    OnePlaceholder(c);
    ConsecutiveExtend(Placeholders(cs), Placeholders([c]));
  }

  // The clause `BuildWhere` produces, part by part.

  function SearchParams(f: Filter): seq<Param> {
    if f.search != [] then [Pattern(Infix(f.search))] else []
  }

  function FromParams(f: Filter): seq<Param> {
    if f.from.Some? then [DateParam(f.from.value)] else []
  }

  function ToParams(f: Filter): seq<Param> {
    if f.to.Some? then [DateParam(f.to.value)] else []
  }

  function ExpectedParams(f: Filter): seq<Param> {
    SearchParams(f) + FromParams(f) + ToParams(f)
  }

  function SearchConditions(f: Filter): seq<Condition> {
    if f.search != [] then [NameLike(1)] else []
  }

  function FromConditions(f: Filter): seq<Condition> {
    if f.from.Some? then [DateFrom(|SearchParams(f)| + 1)] else []
  }

  function ToConditions(f: Filter): seq<Condition> {
    if f.to.Some? then [DateTo(|SearchParams(f)| + |FromParams(f)| + 1)] else []
  }

  function PresentConditions(f: Filter): seq<Condition> {
    if f.onlyPresent then [OnlyOpen] else []
  }

  function ExpectedConditions(f: Filter): seq<Condition> {
    SearchConditions(f) + FromConditions(f) + ToConditions(f) + PresentConditions(f)
  }

  lemma ConsecutiveExtend(ps: seq<nat>, more: seq<nat>)
    requires Consecutive(ps) && (more == [] || more == [|ps| + 1])
    ensures Consecutive(ps + more)
  {
    if more != [] {
      assert (ps + more)[|ps|] == |ps| + 1;
    }
  }

  lemma {:induction false} PlaceholdersConcat(a: seq<Condition>, b: seq<Condition>)
    ensures Placeholders(a + b) == Placeholders(a) + Placeholders(b)
  {
    if a != [] {
      assert (a + b)[1..] == a[1..] + b;
      PlaceholdersConcat(a[1..], b);
    } else {
      assert a + b == b;
    }
  }

  lemma OnePlaceholder(c: Condition)
    ensures Placeholders([c]) == if c.OnlyOpen? then [] else [c.ph]
  {
    assert [c][1..] == [];
  }

  /** The conditions `BuildWhere` produces, one per requested filter part, select
      exactly the rows the filter describes. */
  lemma ExpectedMeaning(f: Filter, row: Row, cal: Calendar)
    ensures EvalAll(ExpectedConditions(f), ExpectedParams(f), row, cal) <==> Matches(f, row, cal)
  {
    var ps := ExpectedParams(f);
    var a, b, c, d := SearchConditions(f), FromConditions(f), ToConditions(f), PresentConditions(f);
    EvalAllAppend(a + b + c, d, ps, row, cal);
    EvalAllAppend(a + b, c, ps, row, cal);
    EvalAllAppend(a, b, ps, row, cal);
    SearchPart(f, row, cal);
    FromPart(f, row, cal);
    ToPart(f, row, cal);
    PresentPart(f, row, cal);
  }

  lemma SearchPart(f: Filter, row: Row, cal: Calendar)
    ensures EvalAll(SearchConditions(f), ExpectedParams(f), row, cal)
        <==> (f.search == [] || Like(ToLower(row.name), Infix(f.search)))
  {
    if f.search != [] {
      assert ExpectedParams(f)[0] == Pattern(Infix(f.search));
      EvalAllOne(NameLike(1), ExpectedParams(f), row, cal);
    }
  }

  lemma FromPart(f: Filter, row: Row, cal: Calendar)
    ensures EvalAll(FromConditions(f), ExpectedParams(f), row, cal)
        <==> (f.from.Some? ==> cal.dayOf(row.checkIn) >= f.from.value)
  {
    if f.from.Some? {
      var k := |SearchParams(f)|;
      assert ExpectedParams(f)[k] == DateParam(f.from.value);
      EvalAllOne(DateFrom(k + 1), ExpectedParams(f), row, cal);
    }
  }

  lemma ToPart(f: Filter, row: Row, cal: Calendar)
    ensures EvalAll(ToConditions(f), ExpectedParams(f), row, cal)
        <==> (f.to.Some? ==> cal.dayOf(row.checkIn) <= f.to.value)
  {
    if f.to.Some? {
      var k2 := |SearchParams(f)| + |FromParams(f)|;
      assert ExpectedParams(f)[k2] == DateParam(f.to.value);
      EvalAllOne(DateTo(k2 + 1), ExpectedParams(f), row, cal);
    }
  }

  lemma PresentPart(f: Filter, row: Row, cal: Calendar)
    ensures EvalAll(PresentConditions(f), ExpectedParams(f), row, cal)
        <==> (f.onlyPresent ==> row.checkOut.None?)
  {
    if f.onlyPresent {
      EvalAllOne(OnlyOpen, ExpectedParams(f), row, cal);
    }
  }

  /** A search with no `%`, `_` or `\` in it keeps exactly the rows whose lower-cased
      name contains it. */
  lemma PlainSearchIsContainment(f: Filter, row: Row, cal: Calendar)
    requires forall i :: 0 <= i < |f.search| ==> !IsLikeSpecial(f.search[i])
    ensures Matches(f, row, cal) <==>
      && (f.search == [] || Contains(ToLower(row.name), f.search))
      && (f.from.Some? ==> cal.dayOf(row.checkIn) >= f.from.value)
      && (f.to.Some? ==> cal.dayOf(row.checkIn) <= f.to.value)
      && (f.onlyPresent ==> row.checkOut.None?)
  {
    LikeInfixIsContains(ToLower(row.name), f.search);
  }

  /** The search is not escaped: searching `a_b` also lists a user named `axb`, whose
      name does not contain the text `a_b`. */
  lemma UnderscoreSearchOverMatches(row: Row, cal: Calendar)
    requires row.name == "axb"
    ensures Matches(Filter("a_b", None, None, false), row, cal)
    ensures !Contains(ToLower(row.name), "a_b")
  {
    assert ToLower("axb") == "axb" by {
      assert forall i :: 0 <= i < 3 ==> LowerChar("axb"[i]) == "axb"[i];
    }
    UnderscoreMatchesAnyChar();
  }

  lemma EvalAllAppend(a: seq<Condition>, b: seq<Condition>, params: seq<Param>, row: Row, cal: Calendar)
    ensures EvalAll(a + b, params, row, cal) <==> EvalAll(a, params, row, cal) && EvalAll(b, params, row, cal)
  {
    if EvalAll(a + b, params, row, cal) {
      forall i | 0 <= i < |a| ensures Eval(a[i], params, row, cal) {
        assert (a + b)[i] == a[i];
      }
      forall i | 0 <= i < |b| ensures Eval(b[i], params, row, cal) {
        assert (a + b)[|a| + i] == b[i];
      }
    }
  }

  lemma EvalAllOne(c: Condition, params: seq<Param>, row: Row, cal: Calendar)
    ensures EvalAll([c], params, row, cal) <==> Eval(c, params, row, cal)
  {
    assert [c][0] == c;
  }

  // ------------------------------------------------------------------ join, order, page

  /** `Users.name` of `u`, from the first `Users` row with that id. */
  function NameOf(users: seq<User>, u: UserId): Option<string>
  {
    if users == [] then None
    else if users[0].id == u then Some(users[0].name)
    else NameOf(users[1..], u)
  }

  /** `x` is the joined row of a record of `rs` whose owner has a `Users` row: the
      record's fields with the owner's name. */
  predicate JoinedFrom(rs: seq<Record>, users: seq<User>, x: Row) {
    exists r :: r in rs && JoinsTo(r, users, x)
  }

  predicate JoinsTo(r: Record, users: seq<User>, x: Row) {
    && r.user.Some? && NameOf(users, r.user.value).Some?
    && x == Row(r.id, r.user.value, NameOf(users, r.user.value).value, r.checkIn, r.checkOut, r.total)
  }

  /** `AttendanceRecord ar JOIN Users u ON ar.id_user = u.id_user`: a record with a
      NULL owner, or an owner with no `Users` row, drops out; every other record gives
      one row carrying its owner's name. */
  function Join(rs: seq<Record>, users: seq<User>): (rows: seq<Row>)
    ensures |rows| <= |rs|
    ensures forall x :: x in rows <==> JoinedFrom(rs, users, x)
  {
    if rs == [] then []
    else
      var r := rs[0];
      var head := if r.user.Some? && NameOf(users, r.user.value).Some? then
        [Row(r.id, r.user.value, NameOf(users, r.user.value).value, r.checkIn, r.checkOut, r.total)]
      else [];
      var rest := Join(rs[1..], users);
      JoinedFromCons(rs, users);
      assert forall x :: x in head <==> JoinsTo(r, users, x);
      head + rest
  }

  /** A row joins from `rs` exactly when it joins from the first record or the rest. */
  lemma JoinedFromCons(rs: seq<Record>, users: seq<User>)
    requires rs != []
    ensures forall x :: JoinedFrom(rs, users, x) <==> JoinsTo(rs[0], users, x) || JoinedFrom(rs[1..], users, x)
  {
    forall x ensures JoinedFrom(rs, users, x) <==> JoinsTo(rs[0], users, x) || JoinedFrom(rs[1..], users, x) {
      if JoinedFrom(rs, users, x) && !JoinsTo(rs[0], users, x) {
        var r :| r in rs && JoinsTo(r, users, x);
        var i :| 0 <= i < |rs| && rs[i] == r;
        assert rs[1..][i - 1] == r;
      }
      if JoinedFrom(rs[1..], users, x) {
        var r :| r in rs[1..] && JoinsTo(r, users, x);
        assert r in rs;
      }
      if JoinsTo(rs[0], users, x) {
        assert rs[0] in rs;
      }
    }
  }

  /** The joined rows that satisfy the filter, in ledger order. */
  function Filtered(rows: seq<Row>, f: Filter, cal: Calendar): (r: seq<Row>)
    ensures |r| <= |rows|
    ensures forall x :: x in r ==> x in rows && Matches(f, x, cal)
    ensures forall x :: x in rows && Matches(f, x, cal) ==> x in r
    ensures multiset(r) <= multiset(rows)
  {
    if rows == [] then []
    else
      var rest := Filtered(rows[1..], f, cal);
      assert rows == [rows[0]] + rows[1..];
      if Matches(f, rows[0], cal) then [rows[0]] + rest else rest
  }

  /** `ORDER BY ar.check_in_time DESC`. */
  ghost predicate NewestFirst(rows: seq<Row>) {
    forall i, j :: 0 <= i < j < |rows| ==> rows[i].checkIn >= rows[j].checkIn
  }

  function InsertNewestFirst(x: Row, rows: seq<Row>): (r: seq<Row>)
    requires NewestFirst(rows)
    ensures NewestFirst(r)
    ensures multiset(r) == multiset(rows) + multiset{x}
  {
    if rows == [] || x.checkIn >= rows[0].checkIn then
      HeadIsNewest(rows);
      ConsNewestFirst(x, rows);
      [x] + rows
    else
      var rest := InsertNewestFirst(x, rows[1..]);
      assert rows == [rows[0]] + rows[1..];
      NoNewerThanHead(x, rows, rest);
      ConsNewestFirst(rows[0], rest);
      [rows[0]] + rest
  }

  /** The first row of a newest-first list is no older than any row of it. */
  lemma HeadIsNewest(rows: seq<Row>)
    requires NewestFirst(rows)
    ensures forall y :: y in rows ==> y.checkIn <= rows[0].checkIn
  {
    forall y | y in rows ensures y.checkIn <= rows[0].checkIn {
      var k :| 0 <= k < |rows| && rows[k] == y;
    }
  }

  /** A row no older than every row of a newest-first list can go in front. */
  lemma ConsNewestFirst(y: Row, rest: seq<Row>)
    requires NewestFirst(rest)
    requires forall z :: z in rest ==> z.checkIn <= y.checkIn
    ensures NewestFirst([y] + rest)
  {
    var all := [y] + rest;
    forall i, j | 0 <= i < j < |all| ensures all[i].checkIn >= all[j].checkIn {
      assert all[j] == rest[j - 1];
      if i > 0 {
        assert all[i] == rest[i - 1];
      } else {
        assert rest[j - 1] in rest;
      }
    }
  }

  /** Everything in a permutation of the tail plus an older `x` is no newer than the head. */
  lemma NoNewerThanHead(x: Row, rows: seq<Row>, rest: seq<Row>)
    requires rows != [] && NewestFirst(rows) && x.checkIn < rows[0].checkIn
    requires multiset(rest) == multiset(rows[1..]) + multiset{x}
    ensures forall y :: y in rest ==> y.checkIn <= rows[0].checkIn
  {
    forall y | y in rest ensures y.checkIn <= rows[0].checkIn {
      assert y in multiset(rest);
      if y != x {
        assert y in multiset(rows[1..]);
        var k :| 0 <= k < |rows[1..]| && rows[1..][k] == y;
        assert rows[k + 1] == y;
      }
    }
  }

  /** The rows sorted by check-in time, newest first (ties in any order). */
  function SortNewestFirst(rows: seq<Row>): (r: seq<Row>)
    ensures NewestFirst(r)
    ensures multiset(r) == multiset(rows)
    ensures |r| == |rows|
  {
    if rows == [] then []
    else
      assert rows == [rows[0]] + rows[1..];
      InsertNewestFirst(rows[0], SortNewestFirst(rows[1..]))
  }

  /** `OFFSET off LIMIT lim`. */
  function OffsetLimit(rows: seq<Row>, off: nat, lim: nat): (r: seq<Row>)
    ensures |r| <= lim
    ensures off <= |rows| ==> r == rows[off..Min(|rows|, off + lim)]
    ensures off > |rows| ==> r == []
  {
    if off > |rows| then [] else rows[off..Min(|rows|, off + lim)]
  }

  /** One page of the rows, newest first: `ORDER BY check_in_time DESC OFFSET $k+1
      LIMIT $k+2` with offset `(page - 1) * pageSize`. */
  function PageRows(all: seq<Row>, page: int, pageSize: int): (r: seq<Row>)
    requires page >= 1 && pageSize >= 1
    ensures |r| <= pageSize
    ensures NewestFirst(r)
    ensures forall x :: x in r ==> x in all
    ensures Offset(page, pageSize) <= |all| ==> InWindow(r, SortNewestFirst(all), Offset(page, pageSize), pageSize)
    ensures Offset(page, pageSize) >= |all| ==> r == []
  {
    var sorted := SortNewestFirst(all);
    var r := OffsetLimit(sorted, Offset(page, pageSize), pageSize);
    SortKeepsRows(all);
    SliceOfSorted(sorted, all, Offset(page, pageSize), pageSize);
    r
  }

  /** `r` is the window `OFFSET off LIMIT lim` of `rows`, which reaches `off`: as many
      rows as fit, taken in order from position `off`. */
  predicate InWindow(r: seq<Row>, rows: seq<Row>, off: nat, lim: nat)
    requires off <= |rows|
  {
    |r| == Min(lim, |rows| - off) && r == rows[off..off + |r|]
  }

  /** Sorting keeps the length and every row. */
  lemma SortKeepsRows(all: seq<Row>)
    ensures |SortNewestFirst(all)| == |all|
    ensures forall x :: x in SortNewestFirst(all) ==> x in all
  {
    var sorted := SortNewestFirst(all);
    assert |sorted| == |multiset(sorted)| == |multiset(all)| == |all|;
    forall x | x in sorted ensures x in all {
      assert x in multiset(sorted);
    }
  }

  /** The window `OFFSET off LIMIT lim` of `sorted`: its length, and rows taken from `all`. */
  lemma SliceOfSorted(sorted: seq<Row>, all: seq<Row>, off: nat, lim: nat)
    requires |sorted| == |all| && forall x :: x in sorted ==> x in all
    ensures var r := OffsetLimit(sorted, off, lim);
      && (forall x :: x in r ==> x in all)
      && (off <= |all| ==> InWindow(r, sorted, off, lim))
      && (off >= |all| ==> r == [])
  {
    var r := OffsetLimit(sorted, off, lim);
    forall x | x in r ensures x in all {
      var i :| 0 <= i < |r| && r[i] == x;
      assert sorted[off + i] == x;
    }
  }

  // ------------------------------------------------------------------ the route

  /** Query-string input, numeric parameters only; `from`/`to` already read as local
      days (`None` when absent or empty). */
  datatype Request = Request(
    page: Option<int>,
    pageSize: Option<int>,
    search: Option<string>,
    from: Option<Day>,
    to: Option<Day>,
    onlyPresent: Option<string>
  )

  datatype Response =
    | Page(records: seq<Row>, page: int, pageSize: int, total: nat)
    | ServerError

  /** The normalised filter: `search` trimmed and lower-cased, `onlyPresent` true only
      for the text "true" in any case. */
  function FilterOf(req: Request): (f: Filter)
    ensures f.from == req.from && f.to == req.to
    ensures (forall i :: 0 <= i < |req.search.GetOr("")| ==> IsSpace(req.search.GetOr("")[i])) ==> f.search == []
    ensures f.search == [] || (!IsSpace(f.search[0]) && !IsSpace(f.search[|f.search| - 1]))
    ensures req.onlyPresent.None? ==> !f.onlyPresent
  {
    var t := Trim(req.search.GetOr(""));
    LowerKeepsNonSpace(t);
    Filter(
      ToLower(Trim(req.search.GetOr(""))),
      req.from,
      req.to,
      ToLower(req.onlyPresent.GetOr("false")) == "true")
  }

  /** Lower-casing turns no character into white space. */
  lemma LowerKeepsNonSpace(t: string)
    ensures t == [] || (!IsSpace(ToLower(t)[0]) <== !IsSpace(t[0]))
    ensures t == [] || (!IsSpace(ToLower(t)[|t| - 1]) <== !IsSpace(t[|t| - 1]))
  {
  }

  /** The present flag ignores letter case: `TRUE`, `True` and `true` all ask for the
      rows still open. */
  lemma PresentFlagIgnoresCase(req: Request, v: string)
    requires req.onlyPresent == Some(v)
    ensures FilterOf(req).onlyPresent == FilterOf(req.(onlyPresent := Some(ToLower(v)))).onlyPresent
  {
    ToLowerIdempotent(v);
  }

  /** The joined rows the request's filter selects, in ledger order. */
  function Selected(snap: Snapshot, cal: Calendar, req: Request): (r: seq<Row>)
    ensures forall x :: x in r <==> x in Join(snap.records, snap.users) && Matches(FilterOf(req), x, cal)
  {
    Filtered(Join(snap.records, snap.users), FilterOf(req), cal)
  }

  /** The handler: one page of the filtered rows, newest first, with the total count of
      the same filtered set; the offset and limit are bound as `$k+1` and `$k+2`. */
  method Get(snap: Snapshot, cal: Calendar, req: Request, backend: Backend)
    returns (resp: Response, where: seq<Condition>, finalParams: seq<Param>)
    ensures backend.Down? ==> resp == ServerError
    ensures backend.Up? ==> resp.Page?
    ensures resp.Page? ==>
      && resp.page == PageParam(req.page)
      && resp.pageSize == PageSizeParam(req.pageSize)
      && resp.total == |Selected(snap, cal, req)|
      && resp.records == PageRows(Selected(snap, cal, req), resp.page, resp.pageSize)
    ensures resp.Page? ==>
      && Consecutive(Placeholders(where))
      && |finalParams| == |Placeholders(where)| + 2
      && Means(where, finalParams[..|finalParams| - 2], FilterOf(req))
      && finalParams[|finalParams| - 2] == Number(Offset(resp.page, resp.pageSize))
      && finalParams[|finalParams| - 1] == Number(resp.pageSize)
  {
    if backend.Down? {
      return ServerError, [], [];
    }
    var page := PageParam(req.page);
    var pageSize := PageSizeParam(req.pageSize);
    var f := FilterOf(req);
    var cs, params := BuildWhere(f);
    var all := Selected(snap, cal, req);
    var total := |all|;
    var offset := Offset(page, pageSize);
    var records := PageRows(all, page, pageSize);
    where := cs;
    finalParams := params + [Number(offset), Number(pageSize)];
    assert finalParams[..|finalParams| - 2] == params;
    assert finalParams[|finalParams| - 2] == Number(offset);
    assert finalParams[|finalParams| - 1] == Number(pageSize);
    resp := Page(records, page, pageSize, total);
  }
}
