/** The attendance records table of the dashboard: search and date-range filtering,
    page arithmetic, the page state behind the pager buttons, and the rendering of
    `INTERVAL` durations. */
module RecordsTable {
  import opened Base
  import opened Text

  /** One row of the table, reduced to what the filter and the duration column read. */
  datatype Row = Row(name: string, checkIn: Instant, total: Option<string>)

  /** The picked range; `to` is absent while only one day is picked. */
  datatype DateRange = DateRange(from: Option<Instant>, to: Option<Instant>)

  // ------------------------------------------------------------------ filtering

  /** `name.toLowerCase().includes(searchTerm.toLowerCase())` (line 148). */
  predicate MatchesSearch(r: Row, term: string): (b: bool)
    ensures term == "" ==> b
    ensures b ==> |term| <= |r.name|
  {
    assert ToLower("") == "";
    ContainsEmpty(ToLower(r.name));
    Contains(ToLower(r.name), ToLower(term))
  }

  /** The date test of lines 150-165. Every instant is first moved to local midnight
      (or, for `to`, to the last millisecond of its day), so comparing the moved
      instants compares local days. */
  predicate MatchesDate(cal: Calendar, r: Row, range: Option<DateRange>): (b: bool)
    ensures range.None? || range.value.from.None? ==> b
    ensures b && range.Some? && range.value.from.Some? ==> cal.dayOf(range.value.from.value) <= cal.dayOf(r.checkIn)
    ensures range.Some? && range.value.from.Some? && range.value.to.None? ==>
      (b <==> cal.dayOf(r.checkIn) == cal.dayOf(range.value.from.value))
  {
    if range.None? || range.value.from.None? then true
    else
      var day, from := cal.dayOf(r.checkIn), cal.dayOf(range.value.from.value);
      match range.value.to
      case Some(to) => from <= day && day <= cal.dayOf(to)
      case None => day == from
  }

  predicate Keep(cal: Calendar, term: string, range: Option<DateRange>, r: Row) {
    MatchesSearch(r, term) && MatchesDate(cal, r, range)
  }

  /** `filteredRecords` (lines 147-168). */
  function Filtered(cal: Calendar, rows: seq<Row>, term: string, range: Option<DateRange>): (f: seq<Row>)
    ensures |f| <= |rows|
    ensures forall r :: r in f <==> r in rows && Keep(cal, term, range, r)
  {
    if rows == [] then []
    else
      var init := Filtered(cal, rows[..|rows| - 1], term, range);
      var last := rows[|rows| - 1];
      assert forall r :: r in rows <==> r in rows[..|rows| - 1] || r == last;
      if Keep(cal, term, range, last) then init + [last] else init
  }

  /** With no search term and no range, every row is shown. */
  lemma {:induction false} NoFilterKeepsAll(cal: Calendar, rows: seq<Row>)
    ensures Filtered(cal, rows, "", None) == rows
  {
    if rows != [] {
      var init, last := rows[..|rows| - 1], rows[|rows| - 1];
      NoFilterKeepsAll(cal, init);
      assert ToLower("") == "";
      ContainsEmpty(ToLower(last.name));
      assert Keep(cal, "", None, last);
      assert Filtered(cal, rows, "", None) == Filtered(cal, init, "", None) + [last];
      assert init + [last] == rows;
    }
  }

  /** The search ignores the case of the term. */
  lemma SearchIgnoresCase(r: Row, term: string)
    ensures MatchesSearch(r, term) == MatchesSearch(r, ToLower(term))
  {
    ToLowerIdempotent(term);
  }

  /** A range with only `from` keeps exactly the rows of that day; a range whose two
      ends are on one day keeps the same rows. */
  lemma SameDayRange(cal: Calendar, r: Row, from: Instant, to: Instant)
    requires cal.dayOf(from) == cal.dayOf(to)
    ensures MatchesDate(cal, r, Some(DateRange(Some(from), None)))
        == MatchesDate(cal, r, Some(DateRange(Some(from), Some(to))))
  {
  }

  // ------------------------------------------------------------------ pages

  /** `Math.max(1, Math.ceil(n / pageSize))` (line 172). */
  function TotalPages(n: nat, pageSize: nat): (t: nat)
    requires pageSize >= 1
    ensures t >= 1
    ensures (t - 1) * pageSize < n || t == 1
    ensures n <= t * pageSize
  {
    Max(1, (n + pageSize - 1) / pageSize)
  }

  /** `Math.min(page, totalPages)` (line 173). */
  function CurrentPage(page: int, totalPages: nat): (p: int)
    requires page >= 1 && totalPages >= 1
    ensures 1 <= p <= totalPages && p <= page
    ensures page <= totalPages ==> p == page
  {
    Min(page, totalPages)
  }

  /** `s.slice(a, b)` for `0 <= a <= b`: the part of `[a, b)` inside `s`. */
  function Slice<T>(s: seq<T>, a: nat, b: nat): (r: seq<T>)
    requires a <= b
    ensures |r| <= b - a
  {
    s[Min(a, |s|)..Min(b, |s|)]
  }

  /** The rows of page `p` (lines 174-176). */
  function PageRows<T>(s: seq<T>, pageSize: nat, p: nat): (r: seq<T>)
    requires pageSize >= 1 && p >= 1
    ensures |r| <= pageSize
  {
    Slice(s, (p - 1) * pageSize, (p - 1) * pageSize + pageSize)
  }

  /** Pages `1 .. k`, one after another. */
  function Pages<T>(s: seq<T>, pageSize: nat, k: nat): seq<T>
    requires pageSize >= 1
  {
    if k == 0 then [] else Pages(s, pageSize, k - 1) + PageRows(s, pageSize, k)
  }

  lemma {:induction false} PagesArePrefix<T>(s: seq<T>, pageSize: nat, k: nat)
    requires pageSize >= 1
    ensures Pages(s, pageSize, k) == s[..Min(k * pageSize, |s|)]
  {
    if k > 0 {
      PagesArePrefix(s, pageSize, k - 1);
      assert (k - 1) * pageSize + pageSize == k * pageSize;
      var a, b := Min((k - 1) * pageSize, |s|), Min(k * pageSize, |s|);
      assert s[..a] + s[a..b] == s[..b];
    }
  }

  /** The pages `1 .. totalPages` together are the filtered list, in order. */
  lemma PagesCoverAll<T>(s: seq<T>, pageSize: nat)
    requires pageSize >= 1
    ensures Pages(s, pageSize, TotalPages(|s|, pageSize)) == s
  {
    PagesArePrefix(s, pageSize, TotalPages(|s|, pageSize));
  }

  /** Every page but the last is full. */
  lemma FullPagesBeforeLast<T>(s: seq<T>, pageSize: nat, p: nat)
    requires pageSize >= 1 && 1 <= p < TotalPages(|s|, pageSize)
    ensures |PageRows(s, pageSize, p)| == pageSize
  {
    var t := TotalPages(|s|, pageSize);
    PageEndsBefore(|s|, pageSize, p, t);
    assert (p - 1) * pageSize + pageSize == p * pageSize;
  }

  /** Page `p` before page `t` ends no later than page `t` starts. */
  lemma PageEndsBefore(n: nat, pageSize: nat, p: nat, t: nat)
    requires pageSize >= 1 && 1 <= p < t && (t - 1) * pageSize < n
    ensures p * pageSize < n
  {
    assert (t - 1) * pageSize == p * pageSize + (t - 1 - p) * pageSize;
  }

  /** A page holds rows of the list only. */
  lemma PageRowsFrom<T>(s: seq<T>, pageSize: nat, p: nat)
    requires pageSize >= 1 && p >= 1
    ensures forall x :: x in PageRows(s, pageSize, p) ==> x in s
  {
    var a := Min((p - 1) * pageSize, |s|);
    var b := Min((p - 1) * pageSize + pageSize, |s|);
    forall x | x in PageRows(s, pageSize, p) ensures x in s {
      var i :| 0 <= i < |s[a..b]| && s[a..b][i] == x;
      assert s[a + i] == x;
    }
  }

  /** A page up to the last one of a non-empty list is never empty: clamping the page
      to `totalPages` (line 173) always shows rows when some pass the filters. */
  lemma PageInRangeNotEmpty<T>(s: seq<T>, pageSize: nat, p: nat)
    requires pageSize >= 1 && s != [] && 1 <= p <= TotalPages(|s|, pageSize)
    ensures PageRows(s, pageSize, p) != []
  {
    var t := TotalPages(|s|, pageSize);
    if t > 1 {
      assert (t - 1) * pageSize < |s|;
      assert (p - 1) * pageSize <= (t - 1) * pageSize by {
        assert (t - 1) * pageSize == (p - 1) * pageSize + (t - p) * pageSize;
      }
    }
    assert (p - 1) * pageSize < |s|;
  }

  // ------------------------------------------------------------------ page state

  /** The component's state: the search term, the date range and the selected page. */
  class RecordsView {
    var term: string
    var range: Option<DateRange>
    var page: int

    ghost predicate Valid()
      reads this
    {
      page >= 1
    }

    constructor ()
      ensures Valid() && term == "" && range.None? && page == 1
    {
      term := "";
      range := None;
      page := 1;
    }

    /** The page shown for the rows at hand. */
    function Shown(cal: Calendar, rows: seq<Row>, pageSize: nat): (r: seq<Row>)
      reads this
      requires Valid() && pageSize >= 1
      ensures |r| <= pageSize
      ensures forall x :: x in r ==> x in rows && Keep(cal, term, range, x)
      ensures (exists x :: x in rows && Keep(cal, term, range, x)) ==> r != []
    {
      var f := Filtered(cal, rows, term, range);
      var p := CurrentPage(page, TotalPages(|f|, pageSize));
      PageRowsFrom(f, pageSize, p);
      if f == [] then PageRows(f, pageSize, p)
      else
        PageInRangeNotEmpty(f, pageSize, p);
        PageRows(f, pageSize, p)
    }

    /** Typing in the search box; the effect on line 170 goes back to page 1 when the
        term really changed. */
    method SetSearch(t: string)
      requires Valid()
      modifies this
      ensures Valid() && term == t && range == old(range)
      ensures page == (if t != old(term) then 1 else old(page))
    {
      if t != term {
        page := 1;
      }
      term := t;
    }

    /** Picking a range: the picker hands a new object each time, so the effect always
        goes back to page 1. */
    method SetRange(r: Option<DateRange>)
      requires Valid()
      modifies this
      ensures Valid() && range == r && term == old(term) && page == 1
    {
      range := r;
      page := 1;
    }

    /** The previous-page button (line 349). */
    method Prev()
      requires Valid()
      modifies this
      ensures Valid() && term == old(term) && range == old(range)
      ensures page == Max(1, old(page) - 1)
    {
      page := Max(1, page - 1);
    }

    /** The next-page button (line 357). */
    method Next(totalPages: nat)
      requires Valid() && totalPages >= 1
      modifies this
      ensures Valid() && term == old(term) && range == old(range)
      ensures page == Min(totalPages, old(page) + 1) && page <= totalPages
    {
      page := Min(totalPages, page + 1);
    }

    /** A numbered button (line 352): the buttons are `1 .. totalPages`. */
    method GoTo(p: int, totalPages: nat)
      requires Valid() && 1 <= p <= totalPages
      modifies this
      ensures Valid() && term == old(term) && range == old(range) && page == p
    {
      page := p;
    }
  }

  /** From a page before the last, the next-page button then the previous-page button
      come back to the same page, with the filters untouched. */
  method NextThenPrev(v: RecordsView, totalPages: nat)
    requires v.Valid() && v.page < totalPages
    modifies v
    ensures v.Valid() && v.page == old(v.page) && v.term == old(v.term) && v.range == old(v.range)
  {
    v.Next(totalPages);
    v.Prev();
  }

  // ------------------------------------------------------------------ durations

  /** `${n}`, with NaN for an unparsed number. */
  function NumberText(n: Option<int>): string {
    match n
    case Some(v) => IntToString(v)
    case None => "NaN"
  }

  /** `formatInterval` (lines 189-204). */
  function FormatInterval(interval: Option<string>): (r: string)
    ensures interval.None? || interval.value == "" ==> r == "-"
    ensures interval.Some? && interval.value != "" && |Split(interval.value, ':')| != 3 ==> r == interval.value
  {
    if interval.None? || interval.value == "" then "-"
    else
      var parts := Split(interval.value, ':');
      if |parts| != 3 then interval.value
      else
        var hours, minutes := ParseInt(parts[0]), ParseInt(parts[1]);
        if hours == Some(0) then NumberText(minutes) + " min"
        else NumberText(hours) + "h " + (if minutes.Some? && minutes.value > 0 then NumberText(minutes) + "m" else "")
  }

  /** On a well-formed `HH:MM:SS`: under an hour, the minutes; otherwise the hours and,
      unless zero, the minutes. */
  lemma FormatHhMmSs(h: nat, m: nat, s: nat)
    requires h < 100 && m < 100 && s < 100
    ensures FormatInterval(Some(Pad2(h) + ":" + Pad2(m) + ":" + Pad2(s))) ==
      if h == 0 then NatToString(m) + " min"
      else NatToString(h) + "h " + (if m > 0 then NatToString(m) + "m" else "")
  {
    var text := Pad2(h) + ":" + Pad2(m) + ":" + Pad2(s);
    SplitHhMmSs(h, m, s);
    ParsePad2(h);
    ParsePad2(m);
    FormatThreeParts(text, Pad2(h), Pad2(m), Pad2(s), h, m);
  }

  /** `formatInterval` on three parts whose first two read as `h` and `m`. */
  lemma FormatThreeParts(text: string, a: string, b: string, c: string, h: nat, m: nat)
    requires text != "" && Split(text, ':') == [a, b, c]
    requires ParseInt(a) == Some(h) && ParseInt(b) == Some(m)
    ensures FormatInterval(Some(text)) ==
      if h == 0 then NumberText(Some(m)) + " min"
      else NumberText(Some(h)) + "h " + (if m > 0 then NumberText(Some(m)) + "m" else "")
  {
  }

  lemma SplitHhMmSs(h: nat, m: nat, s: nat)
    requires h < 100 && m < 100 && s < 100
    ensures Split(Pad2(h) + ":" + Pad2(m) + ":" + Pad2(s), ':') == [Pad2(h), Pad2(m), Pad2(s)]
  {
    var tail := Pad2(m) + ":" + Pad2(s);
    assert Pad2(h) + ":" + Pad2(m) + ":" + Pad2(s) == Pad2(h) + [':'] + tail;
    assert tail == Pad2(m) + [':'] + Pad2(s);
    SplitPieceThen(Pad2(h), ':', tail);
    SplitPieceThen(Pad2(m), ':', Pad2(s));
    SplitPiece(Pad2(s), ':');
  }

  lemma ParsePad2(n: nat)
    requires n < 100
    ensures ParseInt(Pad2(n)) == Some(n) && NumberText(Some(n)) == NatToString(n)
    ensures Pad2(n) != ""
  {
    ParseIntPad2(n, []);
    assert Pad2(n) + [] == Pad2(n);
  }
}
