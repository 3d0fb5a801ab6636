/** The attendance statistics (`GET /api/attendance_stats`): ledger events bucketed
    by local hour of today, by day of the current ISO week, or by week-of-month of the
    current month, with the totals shown next to the chart. */
module AttendanceStats {
  import opened Base
  import opened Text
  import opened Ledger

  // ------------------------------------------------------------------ events

  /** Which timestamp of a record is bucketed: check-in (`entradas`) or check-out (`salidas`). */
  datatype Side = Entry | Exit

  /** The instant of a record's event on `side`, if it happened. */
  function EventAt(r: Record, side: Side): Option<Instant> {
    if side == Entry then Some(r.checkIn) else r.checkOut
  }

  /** The record's event on `side` happened on local day `d`. */
  function OnDay(cal: Calendar, side: Side, d: Day): Record -> bool {
    r => EventAt(r, side).Some? && cal.dayOf(EventAt(r, side).value) == d
  }

  /** Local hour of the record's event on `side` (`-1` when there is none). */
  function HourOfEvent(cal: Calendar, side: Side): Record -> int {
    r => if EventAt(r, side).Some? then cal.hourOf(EventAt(r, side).value) else -1
  }

  /** One row of a `GROUP BY key` result, or one entry handed to a `Map`: a key and its count. */
  datatype Bucket<K> = Bucket(key: K, count: nat)

  /** `SELECT key, COUNT(*) ... WHERE p GROUP BY key ORDER BY key`, for keys in
      `lo .. hi - 1`: one row per key that has rows, ascending. */
  function CountGroups(rs: seq<Record>, p: Record -> bool, key: Record -> int, lo: int, hi: int): (g: seq<Bucket<int>>)
    ensures forall i :: 0 <= i < |g| ==> lo <= g[i].key < hi
    ensures forall i :: 0 <= i < |g| ==> g[i].count == CountIn(rs, p, key, g[i].key) > 0
    ensures forall i, j :: 0 <= i < j < |g| ==> g[i].key < g[j].key
    decreases hi - lo
  {
    if hi <= lo then []
    else
      var c := CountIn(rs, p, key, hi - 1);
      CountGroups(rs, p, key, lo, hi - 1) + (if c > 0 then [Bucket(hi - 1, c)] else [])
  }

  /** Every key with rows has its row. */
  lemma {:induction false} CountGroupsComplete(rs: seq<Record>, p: Record -> bool, key: Record -> int, lo: int, hi: int, k: int)
    requires lo <= k < hi && CountIn(rs, p, key, k) > 0
    ensures Bucket(k, CountIn(rs, p, key, k)) in CountGroups(rs, p, key, lo, hi)
    decreases hi - lo
  {
    if k < hi - 1 {
      CountGroupsComplete(rs, p, key, lo, hi - 1, k);
    }
  }

  // ------------------------------------------------------------------ today: hour labels

  /** `"HH:00"`: the seeded key of hour `h`, and `hoursLabel` of an instant truncated to hour `h`. */
  function HourKey(h: int): (k: string)
    requires 0 <= h < 24
    ensures |k| == 5 && k[..2] == Pad2(h) && k[2..] == ":00"
  {
    Pad2(h) + ":00"
  }

  /** Different hours have different labels. */
  lemma HourKeyInjective(h1: int, h2: int)
    requires 0 <= h1 < 24 && 0 <= h2 < 24
    requires HourKey(h1) == HourKey(h2)
    ensures h1 == h2
  {
    DigitsValuePad2(h1);
    DigitsValuePad2(h2);
    assert Pad2(h1) == HourKey(h1)[..2] == HourKey(h2)[..2] == Pad2(h2);
  }

  /** Strict lexicographic order on character codes; on the digit-and-colon labels of
      the hour chart this is the order `localeCompare` gives. */
  predicate LexLess(a: string, b: string) {
    if a == [] then b != []
    else if b == [] then false
    else if a[0] != b[0] then a[0] < b[0]
    else LexLess(a[1..], b[1..])
  }

  lemma {:induction false} LexLessAsymmetric(a: string, b: string)
    requires LexLess(a, b)
    ensures !LexLess(b, a)
  {
    if a != [] && b != [] && a[0] == b[0] {
      LexLessAsymmetric(a[1..], b[1..]);
    }
  }

  /** Hour labels sort in hour order. */
  lemma HourKeysAscending(h1: int, h2: int)
    requires 0 <= h1 < h2 < 24
    ensures LexLess(HourKey(h1), HourKey(h2))
  {
    var a, b := HourKey(h1), HourKey(h2);
    if h1 / 10 == h2 / 10 {
      assert a[0] == b[0];
      assert a[1..][0] as int == '0' as int + h1 % 10;
      assert b[1..][0] as int == '0' as int + h2 % 10;
    }
  }

  // ------------------------------------------------------------------ today: the JS Map

  /** The counters kept per label. */
  datatype Tally = Tally(entradas: nat, salidas: nat)

  /** A JavaScript `Map<string, Tally>`: entries in insertion order, keys distinct. */
  type HourMap = seq<(string, Tally)>

  predicate DistinctKeys(m: HourMap) {
    forall i, j :: 0 <= i < j < |m| ==> m[i].0 != m[j].0
  }

  function Keys(m: HourMap): set<string> {
    set i | 0 <= i < |m| :: m[i].0
  }

  /** Position of key `k`, if present. */
  function Find(m: HourMap, k: string): (i: Option<nat>)
    ensures i.Some? ==> i.value < |m| && m[i.value].0 == k
    ensures i.None? <==> k !in Keys(m)
  {
    if m == [] then None
    else if m[0].0 == k then Some(0)
    else
      match Find(m[1..], k)
      case None =>
        assert Keys(m) == {m[0].0} + Keys(m[1..]);
        None
      case Some(i) => Some(i + 1)
  }

  /** `map.get(k)`. */
  function MapGet(m: HourMap, k: string): Option<Tally> {
    match Find(m, k)
    case None => None
    case Some(i) => Some(m[i].1)
  }

  /** `map.set(k, v)`: an existing key keeps its position, a new key goes last. */
  function MapSet(m: HourMap, k: string, v: Tally): (r: HourMap)
    requires DistinctKeys(m)
    ensures DistinctKeys(r)
    ensures Keys(r) == Keys(m) + {k}
    ensures MapGet(r, k) == Some(v)
    ensures forall k' :: k' != k ==> MapGet(r, k') == MapGet(m, k')
    ensures |m| <= |r| && forall i :: 0 <= i < |m| ==> r[i].0 == m[i].0
    ensures k in Keys(m) ==> |r| == |m|
  {
    PutFacts(m, k, v);
    Put(m, k, v)
  }

  function Put(m: HourMap, k: string, v: Tally): HourMap {
    match Find(m, k)
    case Some(i) => m[i := (k, v)]
    case None => m + [(k, v)]
  }

  lemma PutFacts(m: HourMap, k: string, v: Tally)
    requires DistinctKeys(m)
    ensures var r := Put(m, k, v);
      && DistinctKeys(r)
      && Keys(r) == Keys(m) + {k}
      && MapGet(r, k) == Some(v)
      && (forall k' :: k' != k ==> MapGet(r, k') == MapGet(m, k'))
      && |m| <= |r| && (forall i :: 0 <= i < |m| ==> r[i].0 == m[i].0)
      && (k in Keys(m) ==> |r| == |m|)
  {
    var r := Put(m, k, v);
    match Find(m, k)
    case Some(i) =>
      assert Keys(r) == Keys(m) by {
        assert forall j :: 0 <= j < |m| ==> r[j].0 == m[j].0;
      }
      GetOfDistinct(r, i);
      forall k' | k' != k ensures MapGet(r, k') == MapGet(m, k') {
        match Find(m, k')
        case None =>
        case Some(j) => GetOfDistinct(r, j); GetOfDistinct(m, j);
      }
    case None =>
      assert Keys(r) == Keys(m) + {k} by {
        assert forall j :: 0 <= j < |m| ==> r[j] == m[j];
        assert r[|m|].0 == k;
      }
      GetOfDistinct(r, |m|);
      forall k' | k' != k ensures MapGet(r, k') == MapGet(m, k') {
        match Find(m, k')
        case None =>
          assert k' !in Keys(r);
        case Some(j) => GetOfDistinct(r, j); GetOfDistinct(m, j);
      }
  }

  /** With distinct keys, looking up the key at position `i` finds position `i`. */
  lemma GetOfDistinct(m: HourMap, i: nat)
    requires DistinctKeys(m) && i < |m|
    ensures Find(m, m[i].0) == Some(i) && MapGet(m, m[i].0) == Some(m[i].1)
  {
    var j := Find(m, m[i].0);
    assert m[i].0 in Keys(m);
  }

  /** The count of the last row labelled `k` (`0` if none): what repeated `map.set`
      leaves behind for `k`. */
  function LastCount<K(==)>(rows: seq<Bucket<K>>, k: K): nat {
    if rows == [] then 0
    else if rows[|rows| - 1].key == k then rows[|rows| - 1].count
    else LastCount(rows[..|rows| - 1], k)
  }

  function Labels<K>(rows: seq<Bucket<K>>): set<K> {
    set i | 0 <= i < |rows| :: rows[i].key
  }

  /** The 24 seeded keys `"00:00" .. "23:00"`. */
  function SeededKeys(): set<string> {
    set h | 0 <= h < 24 :: HourKey(h)
  }

  /** `map.get(k) || { entradas: 0, salidas: 0 }`. */
  function GetOrZero(m: HourMap, k: string): Tally {
    MapGet(m, k).GetOr(Tally(0, 0))
  }

  /** The map after the seeding loop (lines 42-48): the 24 hours, in order, at zero. */
  method SeedHours() returns (m: HourMap)
    ensures DistinctKeys(m) && |m| == 24
    ensures forall h :: 0 <= h < 24 ==> m[h] == (HourKey(h), Tally(0, 0))
    ensures Keys(m) == SeededKeys()
  {
    m := [];
    for i := 0 to 24
      invariant |m| == i && DistinctKeys(m)
      invariant forall h :: 0 <= h < i ==> m[h] == (HourKey(h), Tally(0, 0))
    {
      forall h | 0 <= h < i ensures m[h].0 != HourKey(i) {
        if m[h].0 == HourKey(i) { HourKeyInjective(h, i); }
      }
      m := MapSet(m, HourKey(i), Tally(0, 0));
    }
    forall k | k in SeededKeys() ensures k in Keys(m) {
      var h :| 0 <= h < 24 && k == HourKey(h);
      assert m[h].0 == k;
    }
  }

  /** The invariant of the merge: the seeded hours stay in front, in order. */
  predicate Seeded(m: HourMap) {
    DistinctKeys(m) && |m| >= 24 && forall h :: 0 <= h < 24 ==> m[h].0 == HourKey(h)
  }

  /** Lines 50-53: each check-in row sets its label to `{ entradas: count, salidas: 0 }`. */
  method SetEntradas(m0: HourMap, ins: seq<Bucket<string>>) returns (m: HourMap)
    requires Seeded(m0)
    requires forall k :: k in Keys(m0) ==> MapGet(m0, k) == Some(Tally(0, 0))
    ensures Seeded(m)
    ensures Keys(m) == Keys(m0) + Labels(ins)
    ensures forall k :: k in Keys(m) ==> MapGet(m, k) == Some(Tally(LastCount(ins, k), 0))
    ensures forall k :: k !in Keys(m) ==> LastCount(ins, k) == 0
  {
    m := m0;
    for n := 0 to |ins|
      invariant Seeded(m)
      invariant Keys(m) == Keys(m0) + Labels(ins[..n])
      invariant forall k :: k in Keys(m) ==> MapGet(m, k) == Some(Tally(LastCount(ins[..n], k), 0))
    {
      var row := ins[n];
      PrefixStep(ins, n);
      var m' := MapSet(m, row.key, Tally(row.count, 0));
      forall k | k in Keys(m') ensures MapGet(m', k) == Some(Tally(LastCount(ins[..n + 1], k), 0)) {
        if k != row.key {
          assert k in Keys(m);
        }
      }
      m := m';
    }
    assert ins[..|ins|] == ins;
    forall k | k !in Keys(m) ensures LastCount(ins, k) == 0 {
      LastCountAbsent(ins, k);
    }
  }

  /** Lines 54-59: each check-out row sets `salidas` of its label, keeping `entradas`
      (or starting from zero for a label not yet in the map). */
  method SetSalidas(m0: HourMap, ins: seq<Bucket<string>>, outs: seq<Bucket<string>>) returns (m: HourMap)
    requires Seeded(m0)
    requires forall k :: k in Keys(m0) ==> MapGet(m0, k) == Some(Tally(LastCount(ins, k), 0))
    requires forall k :: k !in Keys(m0) ==> LastCount(ins, k) == 0
    ensures Seeded(m)
    ensures Keys(m) == Keys(m0) + Labels(outs)
    ensures forall k :: k in Keys(m) ==> MapGet(m, k) == Some(Tally(LastCount(ins, k), LastCount(outs, k)))
  {
    m := m0;
    for n := 0 to |outs|
      invariant Seeded(m)
      invariant Keys(m) == Keys(m0) + Labels(outs[..n])
      invariant forall k :: k in Keys(m) ==> MapGet(m, k) == Some(Tally(LastCount(ins, k), LastCount(outs[..n], k)))
      invariant forall k :: k !in Keys(m) ==> LastCount(ins, k) == 0
    {
      var row := outs[n];
      PrefixStep(outs, n);
      var obj := GetOrZero(m, row.key);
      assert obj.entradas == LastCount(ins, row.key);
      var m' := MapSet(m, row.key, obj.(salidas := row.count));
      forall k | k in Keys(m') ensures MapGet(m', k) == Some(Tally(LastCount(ins, k), LastCount(outs[..n + 1], k))) {
        if k != row.key {
          assert k in Keys(m);
        }
      }
      m := m';
    }
    assert outs[..|outs|] == outs;
  }

  /** One more row: the prefix's labels and last counts grow by that row. */
  lemma PrefixStep<K>(rows: seq<Bucket<K>>, n: nat)
    requires n < |rows|
    ensures Labels(rows[..n + 1]) == Labels(rows[..n]) + {rows[n].key}
    ensures forall k :: LastCount(rows[..n + 1], k) == if rows[n].key == k then rows[n].count else LastCount(rows[..n], k)
  {
    var pre := rows[..n + 1];
    assert pre[..|pre| - 1] == rows[..n] && pre[|pre| - 1] == rows[n];
    assert forall j :: 0 <= j < n ==> pre[j] == rows[..n][j];
    forall k ensures LastCount(pre, k) == if rows[n].key == k then rows[n].count else LastCount(rows[..n], k) {
    }
  }

  /** A label no row carries was never set. */
  lemma {:induction false} LastCountAbsent<K>(rows: seq<Bucket<K>>, k: K)
    requires k !in Labels(rows)
    ensures LastCount(rows, k) == 0
  {
    if rows != [] {
      var init := rows[..|rows| - 1];
      assert Labels(init) <= Labels(rows) by {
        assert forall j :: 0 <= j < |init| ==> init[j] == rows[j];
      }
      assert rows[|rows| - 1].key in Labels(rows);
      LastCountAbsent(init, k);
    }
  }

  /** Lines 42-59 together: seed, merge check-ins, merge check-outs. */
  method MergeHours(ins: seq<Bucket<string>>, outs: seq<Bucket<string>>) returns (m: HourMap)
    ensures Seeded(m)
    ensures Keys(m) == SeededKeys() + Labels(ins) + Labels(outs)
    ensures forall k :: k in Keys(m) ==> MapGet(m, k) == Some(Tally(LastCount(ins, k), LastCount(outs, k)))
  {
    m := SeedHours();
    forall k | k in Keys(m) ensures MapGet(m, k) == Some(Tally(0, 0)) {
      var i :| 0 <= i < |m| && m[i].0 == k;
      GetOfDistinct(m, i);
    }
    m := SetEntradas(m, ins);
    m := SetSalidas(m, ins, outs);
  }

  // ------------------------------------------------------------------ today: the chart

  /** The query rows of one side, each labelled with `hoursLabel(ts)`. */
  function HourRows(g: seq<Bucket<int>>): (rows: seq<Bucket<string>>)
    requires forall i :: 0 <= i < |g| ==> 0 <= g[i].key < 24
    ensures |rows| == |g|
    ensures forall i :: 0 <= i < |g| ==> rows[i] == Bucket(HourKey(g[i].key), g[i].count)
  {
    if g == [] then [] else HourRows(g[..|g| - 1]) + [Bucket(HourKey(g[|g| - 1].key), g[|g| - 1].count)]
  }

  /** Every hour label of the query rows is one of the seeded keys. */
  lemma HourRowsSeeded(g: seq<Bucket<int>>)
    requires forall i :: 0 <= i < |g| ==> 0 <= g[i].key < 24
    ensures Labels(HourRows(g)) <= SeededKeys()
  {
  }

  /** After the merge, the label of hour `h` holds the count of hour `h`. */
  lemma {:induction false} LastCountOfGroups(rs: seq<Record>, p: Record -> bool, key: Record -> int, hi: int, h: int)
    requires 0 <= hi <= 24 && 0 <= h < 24
    ensures LastCount(HourRows(CountGroups(rs, p, key, 0, hi)), HourKey(h)) == if h < hi then CountIn(rs, p, key, h) else 0
    decreases hi
  {
    if hi > 0 {
      var g0 := CountGroups(rs, p, key, 0, hi - 1);
      var c := CountIn(rs, p, key, hi - 1);
      LastCountOfGroups(rs, p, key, hi - 1, h);
      var prev := LastCount(HourRows(g0), HourKey(h));
      assert prev == if h < hi - 1 then CountIn(rs, p, key, h) else 0;
      if c > 0 {
        assert CountGroups(rs, p, key, 0, hi) == g0 + [Bucket(hi - 1, c)];
        HourRowsSnoc(g0, Bucket(hi - 1, c));
        LastCountSnoc(HourRows(g0), Bucket(HourKey(hi - 1), c), HourKey(h));
        if HourKey(hi - 1) == HourKey(h) {
          HourKeyInjective(hi - 1, h);
        }
      } else {
        assert CountGroups(rs, p, key, 0, hi) == g0;
      }
    }
  }

  lemma HourRowsSnoc(g: seq<Bucket<int>>, x: Bucket<int>)
    requires forall i :: 0 <= i < |g| ==> 0 <= g[i].key < 24
    requires 0 <= x.key < 24
    ensures HourRows(g + [x]) == HourRows(g) + [Bucket(HourKey(x.key), x.count)]
  {
    assert (g + [x])[..|g|] == g;
  }

  lemma LastCountSnoc<K>(rows: seq<Bucket<K>>, x: Bucket<K>, k: K)
    ensures LastCount(rows + [x], k) == if x.key == k then x.count else LastCount(rows, k)
  {
    assert (rows + [x])[..|rows|] == rows;
  }

  /** The seeded map after the merge holds exactly the 24 hours when no other label
      came in. */
  lemma OnlySeeded(m: HourMap)
    requires Seeded(m) && Keys(m) == SeededKeys()
    ensures |m| == 24
  {
    if |m| > 24 {
      ExtraKeyNotSeeded(m);
      assert false;
    }
  }

  lemma ExtraKeyNotSeeded(m: HourMap)
    requires Seeded(m) && |m| > 24
    ensures m[24].0 !in SeededKeys() && m[24].0 in Keys(m)
  {
    forall h | 0 <= h < 24 ensures m[24].0 != HourKey(h) {
      assert m[h].0 == HourKey(h);
    }
  }

  /** Sorted by label (ascending, ties allowed). */
  predicate SortedByKey(m: HourMap) {
    forall i, j :: 0 <= i < j < |m| ==> !LexLess(m[j].0, m[i].0)
  }

  function InsertByKey(e: (string, Tally), s: HourMap): (r: HourMap)
    ensures multiset(r) == multiset(s) + multiset{e}
  {
    if s == [] || !LexLess(s[0].0, e.0) then [e] + s
    else
      assert s == [s[0]] + s[1..];
      [s[0]] + InsertByKey(e, s[1..])
  }

  /** `Array.from(map.entries()).sort((a, b) => a[0].localeCompare(b[0]))`: an insertion
      sort by label; a permutation of the entries. */
  function SortByKey(m: HourMap): (r: HourMap)
    ensures multiset(r) == multiset(m)
  {
    if m == [] then []
    else
      assert m == [m[0]] + m[1..];
      InsertByKey(m[0], SortByKey(m[1..]))
  }

  /** Entries already in label order are left as they are. */
  lemma {:induction false} SortSortedIsIdentity(m: HourMap)
    requires forall i, j :: 0 <= i < j < |m| ==> LexLess(m[i].0, m[j].0)
    ensures SortByKey(m) == m
  {
    if m != [] {
      SortSortedIsIdentity(m[1..]);
      if |m| > 1 {
        LexLessAsymmetric(m[0].0, m[1].0);
      }
      assert [m[0]] + m[1..] == m;
    }
  }

  /** One bar of a chart: its label (`hora`, `name` or `semana`) and the two counts. */
  datatype Bar = Bar(name: string, entradas: nat, salidas: nat)

  function Buckets(m: HourMap): (chart: seq<Bar>)
    ensures |chart| == |m|
    ensures forall i :: 0 <= i < |m| ==> chart[i] == Bar(m[i].0, m[i].1.entradas, m[i].1.salidas)
  {
    if m == [] then [] else [Bar(m[0].0, m[0].1.entradas, m[0].1.salidas)] + Buckets(m[1..])
  }

  /** `chart.reduce((sum, c) => sum + c.entradas, 0)`. */
  function SumEntradas(chart: seq<Bar>): int {
    if chart == [] then 0 else SumEntradas(chart[..|chart| - 1]) + chart[|chart| - 1].entradas
  }

  /** Adding up per-hour counts bar by bar adds up the bucket counts. */
  lemma {:induction false} SumEntradasCounts(chart: seq<Bar>, rs: seq<Record>, p: Record -> bool, key: Record -> int, lo: int)
    requires forall i :: 0 <= i < |chart| ==> chart[i].entradas == CountIn(rs, p, key, lo + i)
    ensures SumEntradas(chart) == SumCounts(rs, p, key, lo, lo + |chart|)
  {
    if chart != [] {
      SumEntradasCounts(chart[..|chart| - 1], rs, p, key, lo);
    }
  }

  function SumSalidas(chart: seq<Bar>): int {
    if chart == [] then 0 else SumSalidas(chart[..|chart| - 1]) + chart[|chart| - 1].salidas
  }

  lemma {:induction false} SumSalidasCounts(chart: seq<Bar>, rs: seq<Record>, p: Record -> bool, key: Record -> int, lo: int)
    requires forall i :: 0 <= i < |chart| ==> chart[i].salidas == CountIn(rs, p, key, lo + i)
    ensures SumSalidas(chart) == SumCounts(rs, p, key, lo, lo + |chart|)
  {
    if chart != [] {
      SumSalidasCounts(chart[..|chart| - 1], rs, p, key, lo);
    }
  }

  /** Records whose check-in is on local day `today`. */
  function CheckedInOn(cal: Calendar, today: Day): Record -> bool {
    OnDay(cal, Entry, today)
  }

  /** Check-ins (or check-outs) of today in local hour `h`. */
  function TodayCount(rs: seq<Record>, cal: Calendar, now: Instant, side: Side, h: int): nat {
    CountIn(rs, OnDay(cal, side, cal.dayOf(now)), HourOfEvent(cal, side), h)
  }

  /** Seconds one of today's records contributes to `horas_totales`: its stored total
      if closed, the time elapsed since check-in if open. */
  function Worked(r: Record, now: Instant): int {
    match r.total
    case Some(t) => t
    case None => now - r.checkIn
  }

  /** Seconds one record contributes to `horas_extras`: `GREATEST(total - 8h, 0)`, and
      nothing while open (`GREATEST` skips the NULL). */
  function Overtime(r: Record): int {
    match r.total
    case Some(t) => Max(t - 8 * SecondsPerHour, 0)
    case None => 0
  }

  /** `horas_totales`, in seconds, over the records checked in today. */
  function HoursToday(rs: seq<Record>, cal: Calendar, now: Instant): int {
    SumOf(Select(rs, CheckedInOn(cal, cal.dayOf(now))), r => Worked(r, now))
  }

  /** `horas_extras`, in seconds, over the records checked in today. */
  function OvertimeToday(rs: seq<Record>, cal: Calendar, now: Instant): int {
    SumOf(Select(rs, CheckedInOn(cal, cal.dayOf(now))), Overtime)
  }

  /** The figures beside the hour chart. */
  datatype TodayStats = TodayStats(asistencias: int, ausencias: int, horasTotales: int, horasExtras: int)

  /** The labelled rows of the per-hour query of one side (lines 22-40, 51 and 55). */
  function TodayRows(rs: seq<Record>, cal: Calendar, now: Instant, side: Side): seq<Bucket<string>> {
    HourRows(CountGroups(rs, OnDay(cal, side, cal.dayOf(now)), HourOfEvent(cal, side), 0, 24))
  }

  /** What the merge of today's rows leaves: exactly the 24 hours, in order, each with
      its check-in and check-out counts. */
  lemma MergedToday(rs: seq<Record>, cal: Calendar, now: Instant, m: HourMap)
    requires Seeded(m)
    requires Keys(m) == SeededKeys() + Labels(TodayRows(rs, cal, now, Entry)) + Labels(TodayRows(rs, cal, now, Exit))
    requires forall k :: k in Keys(m) ==>
      MapGet(m, k) == Some(Tally(LastCount(TodayRows(rs, cal, now, Entry), k), LastCount(TodayRows(rs, cal, now, Exit), k)))
    ensures |m| == 24
    ensures forall h :: 0 <= h < 24 ==>
      m[h] == (HourKey(h), Tally(TodayCount(rs, cal, now, Entry, h), TodayCount(rs, cal, now, Exit, h)))
  {
    TodayRowsSeeded(rs, cal, now, Entry);
    TodayRowsSeeded(rs, cal, now, Exit);
    OnlySeeded(m);
    forall h | 0 <= h < 24
      ensures m[h] == (HourKey(h), Tally(TodayCount(rs, cal, now, Entry, h), TodayCount(rs, cal, now, Exit, h)))
    {
      GetOfDistinct(m, h);
      assert HourKey(h) in Keys(m);
      TodayRowsCount(rs, cal, now, Entry, h);
      TodayRowsCount(rs, cal, now, Exit, h);
    }
  }

  lemma TodayRowsSeeded(rs: seq<Record>, cal: Calendar, now: Instant, side: Side)
    ensures Labels(TodayRows(rs, cal, now, side)) <= SeededKeys()
  {
    HourRowsSeeded(CountGroups(rs, OnDay(cal, side, cal.dayOf(now)), HourOfEvent(cal, side), 0, 24));
  }

  lemma TodayRowsCount(rs: seq<Record>, cal: Calendar, now: Instant, side: Side, h: int)
    requires 0 <= h < 24
    ensures LastCount(TodayRows(rs, cal, now, side), HourKey(h)) == TodayCount(rs, cal, now, side, h)
  {
    LastCountOfGroups(rs, OnDay(cal, side, cal.dayOf(now)), HourOfEvent(cal, side), 24, h);
  }

  /** The check-ins of today, added up over the 24 hours, are all of today's check-ins. */
  lemma TodayHoursPartition(rs: seq<Record>, cal: Calendar, now: Instant, chart: seq<Bar>)
    requires cal.WellFormed()
    requires |chart| == 24
    requires forall h :: 0 <= h < 24 ==> chart[h].entradas == TodayCount(rs, cal, now, Entry, h)
    ensures SumEntradas(chart) == CountWhere(rs, CheckedInOn(cal, cal.dayOf(now)))
  {
    var p, key := OnDay(cal, Entry, cal.dayOf(now)), HourOfEvent(cal, Entry);
    SumEntradasCounts(chart, rs, p, key, 0);
    forall x | x in rs && p(x) ensures 0 <= key(x) < 24 {
      assert EventAt(x, Entry) == Some(x.checkIn);
      assert key(x) == cal.hourOf(x.checkIn);
    }
    SumCountsPartition(rs, p, key, 0, 24);
  }

  /** The `today` branch (lines 20-92). */
  method Today(snap: Snapshot, cal: Calendar, now: Instant) returns (chart: seq<Bar>, stats: TodayStats)
    requires cal.WellFormed()
    ensures |chart| == 24
    ensures forall h :: 0 <= h < 24 ==>
      chart[h] == Bar(HourKey(h), TodayCount(snap.records, cal, now, Entry, h), TodayCount(snap.records, cal, now, Exit, h))
    ensures stats.asistencias == CountWhere(snap.records, CheckedInOn(cal, cal.dayOf(now)))
    ensures stats.ausencias == |snap.users| - stats.asistencias
    ensures stats.horasTotales == HoursToday(snap.records, cal, now)
    ensures stats.horasExtras == OvertimeToday(snap.records, cal, now)
  {
    var rs := snap.records;
    var m := MergeHours(TodayRows(rs, cal, now, Entry), TodayRows(rs, cal, now, Exit));
    MergedToday(rs, cal, now, m);
    forall i, j | 0 <= i < j < |m| ensures LexLess(m[i].0, m[j].0) {
      HourKeysAscending(i, j);
    }
    SortSortedIsIdentity(m);
    chart := Buckets(SortByKey(m));
    var asistencias := SumEntradas(chart);
    TodayHoursPartition(rs, cal, now, chart);
    stats := TodayStats(asistencias, |snap.users| - asistencias, HoursToday(rs, cal, now), OvertimeToday(rs, cal, now));
  }

  /** Overtime never exceeds the hours worked, as long as no stored total is negative
      and no open record was checked in after `now`. */
  lemma OvertimeWithinHours(rs: seq<Record>, cal: Calendar, now: Instant)
    requires forall r :: r in rs ==> (r.total.Some? ==> r.total.value >= 0) && (r.total.None? ==> r.checkIn <= now)
    ensures 0 <= OvertimeToday(rs, cal, now) <= HoursToday(rs, cal, now)
  {
    var sel := Select(rs, CheckedInOn(cal, cal.dayOf(now)));
    SumOfMono(sel, Overtime, r => Worked(r, now));
    SumOfMono(sel, r => 0, Overtime);
    SumOfZero(sel, r => 0);
  }

  /** Nobody checked in today stayed more than eight hours: no overtime. */
  lemma NoOvertimeUnderEightHours(rs: seq<Record>, cal: Calendar, now: Instant)
    requires forall r :: r in rs && r.total.Some? ==> r.total.value <= 8 * SecondsPerHour
    ensures OvertimeToday(rs, cal, now) == 0
  {
    SumOfZero(Select(rs, CheckedInOn(cal, cal.dayOf(now))), Overtime);
  }

  // ------------------------------------------------------------------ maps filled by forEach

  /** `rows.forEach(r => map.set(r.key, r.count))` on an empty `Map`: every key of the
      rows is present and holds the count of its last row. */
  method FillMap<K>(rows: seq<Bucket<K>>) returns (mp: map<K, nat>)
    ensures mp.Keys == Labels(rows)
    ensures forall k :: k in mp ==> mp[k] == LastCount(rows, k)
  {
    mp := map[];
    for n := 0 to |rows|
      invariant mp.Keys == Labels(rows[..n])
      invariant forall k :: k in mp ==> mp[k] == LastCount(rows[..n], k)
    {
      PrefixStep(rows, n);
      mp := mp[rows[n].key := rows[n].count];
    }
    assert rows[..|rows|] == rows;
  }

  /** `map.get(k) || 0`. */
  function GetOr0<K>(mp: map<K, nat>, k: K): nat {
    if k in mp then mp[k] else 0
  }

  /** What `FillMap` leaves, read back with `|| 0`: the last count of the key. */
  lemma GetOr0OfFill<K>(rows: seq<Bucket<K>>, mp: map<K, nat>, k: K)
    requires mp.Keys == Labels(rows)
    requires forall k' :: k' in mp ==> mp[k'] == LastCount(rows, k')
    ensures GetOr0(mp, k) == LastCount(rows, k)
  {
    if k !in mp {
      LastCountAbsent(rows, k);
    }
  }

  // ------------------------------------------------------------------ week

  /** The short Spanish weekday names, Monday first (line 133), which are also what
      `toLocaleDateString("es-BO", { weekday: "short" })` yields. */
  const WeekDays: seq<string> := ["lun", "mar", "mié", "jue", "vie", "sáb", "dom"]

  lemma WeekDaysDistinct(i: int, j: int)
    requires 0 <= i < 7 && 0 <= j < 7 && WeekDays[i] == WeekDays[j]
    ensures i == j
  {
  }

  /** The weekday label of a local date. */
  function ShortWeekday(d: Day): string {
    WeekDays[IsoWeekday(d) - 1]
  }

  /** The registered users whose event on `side` happened on local day `d`. */
  function UsersOn(rs: seq<Record>, cal: Calendar, side: Side, d: Day): set<UserId> {
    UsersWhere(rs, OnDay(cal, side, d))
  }

  /** Some record had its event on `side` on local day `d`. */
  predicate AnyOn(rs: seq<Record>, cal: Calendar, side: Side, d: Day) {
    exists i :: 0 <= i < |rs| && OnDay(cal, side, d)(rs[i])
  }

  /** `SELECT day, COUNT(DISTINCT id_user) ... GROUP BY day` over the days
      `start .. start + n - 1`: one row per day with any event, labelled with its weekday. */
  function WeekRows(rs: seq<Record>, cal: Calendar, side: Side, start: Day, n: nat): (rows: seq<Bucket<string>>)
    decreases n
  {
    if n == 0 then []
    else
      var d := start + n - 1;
      WeekRows(rs, cal, side, start, n - 1)
        + (if AnyOn(rs, cal, side, d) then [Bucket(ShortWeekday(d), |UsersOn(rs, cal, side, d)|)] else [])
  }

  /** A day without events has no users. */
  lemma NoUsersOnQuietDay(rs: seq<Record>, cal: Calendar, side: Side, d: Day)
    requires !AnyOn(rs, cal, side, d)
    ensures UsersOn(rs, cal, side, d) == {}
  {
    forall r | r in rs ensures !OnDay(cal, side, d)(r) {
      var i :| 0 <= i < |rs| && rs[i] == r;
    }
  }

  /** Within one ISO week, the weekday label of day `k` read back finds that day's
      number of distinct users (zero when the day had no events). */
  lemma {:induction false} LastCountOfWeek(rs: seq<Record>, cal: Calendar, side: Side, d: Day, n: nat, k: int)
    requires n <= 7 && 0 <= k < 7
    ensures LastCount(WeekRows(rs, cal, side, StartOfWeek(d), n), WeekDays[k])
      == if k < n then |UsersOn(rs, cal, side, StartOfWeek(d) + k)| else 0
    decreases n
  {
    var start := StartOfWeek(d);
    if n > 0 {
      var day := start + n - 1;
      var prev := WeekRows(rs, cal, side, start, n - 1);
      LastCountOfWeek(rs, cal, side, d, n - 1, k);
      var before := LastCount(prev, WeekDays[k]);
      assert before == if k < n - 1 then |UsersOn(rs, cal, side, start + k)| else 0;
      WeekdayInWeek(d, n - 1);
      assert ShortWeekday(day) == WeekDays[n - 1];
      if AnyOn(rs, cal, side, day) {
        var x := Bucket(WeekDays[n - 1], |UsersOn(rs, cal, side, day)|);
        assert WeekRows(rs, cal, side, start, n) == prev + [x];
        LastCountSnoc(prev, x, WeekDays[k]);
        if WeekDays[n - 1] == WeekDays[k] {
          WeekDaysDistinct(n - 1, k);
        }
      } else {
        assert WeekRows(rs, cal, side, start, n) == prev;
        if k == n - 1 {
          NoUsersOnQuietDay(rs, cal, side, day);
        }
      }
    }
  }

  /** The week chart's labels: `Lun`, `Mar`, ..., `Dom`. */
  function WeekDayName(k: int): string
    requires 0 <= k < 7
  {
    UpperFirst(WeekDays[k])
  }

  /** The capitalised label is turned back into the map key by `toLowerCase`. */
  lemma WeekDayNameKey(k: int)
    requires 0 <= k < 7
    ensures ToLower(WeekDayName(k)) == WeekDays[k]
  {
    var wd := WeekDays[k];
    assert wd[0] in "lmjvsd";
    forall i | 0 <= i < |wd| ensures LowerChar(wd[i]) == wd[i] {
      assert wd[i] in "lunmariéjvesábdo";
    }
    LowerUpperFirst(wd);
  }

  /** The weekday maps of the week branch, read back under a bar's label. */
  lemma WeekMapLookup(rs: seq<Record>, cal: Calendar, d: Day, side: Side, mp: map<string, nat>, k: int)
    requires 0 <= k < 7
    requires mp.Keys == Labels(WeekRows(rs, cal, side, StartOfWeek(d), 7))
    requires forall k' :: k' in mp ==> mp[k'] == LastCount(WeekRows(rs, cal, side, StartOfWeek(d), 7), k')
    ensures GetOr0(mp, ToLower(WeekDayName(k))) == |UsersOn(rs, cal, side, StartOfWeek(d) + k)|
  {
    WeekDayNameKey(k);
    GetOr0OfFill(WeekRows(rs, cal, side, StartOfWeek(d), 7), mp, WeekDays[k]);
    LastCountOfWeek(rs, cal, side, d, 7, k);
  }

  /** The bar of the `k`-th day of the week starting on `start`. */
  function DayBar(rs: seq<Record>, cal: Calendar, start: Day, k: int): Bar
    requires 0 <= k < 7
  {
    Bar(WeekDayName(k), |UsersOn(rs, cal, Entry, start + k)|, |UsersOn(rs, cal, Exit, start + k)|)
  }

  /** `weekDays.map(...)` (lines 134-140) over the two weekday maps. */
  function WeekBars(mapIn: map<string, nat>, mapOut: map<string, nat>): (chart: seq<Bar>)
    ensures |chart| == 7
    ensures forall k :: 0 <= k < 7 ==>
      chart[k] == Bar(WeekDayName(k), GetOr0(mapIn, ToLower(WeekDayName(k))), GetOr0(mapOut, ToLower(WeekDayName(k))))
  {
    seq(7, k requires 0 <= k < 7 =>
      Bar(WeekDayName(k), GetOr0(mapIn, ToLower(WeekDayName(k))), GetOr0(mapOut, ToLower(WeekDayName(k)))))
  }

  /** The bars built from the filled weekday maps are the days' distinct users. */
  lemma WeekBarsCounts(rs: seq<Record>, cal: Calendar, d: Day, mapIn: map<string, nat>, mapOut: map<string, nat>)
    requires mapIn.Keys == Labels(WeekRows(rs, cal, Entry, StartOfWeek(d), 7))
    requires forall k' :: k' in mapIn ==> mapIn[k'] == LastCount(WeekRows(rs, cal, Entry, StartOfWeek(d), 7), k')
    requires mapOut.Keys == Labels(WeekRows(rs, cal, Exit, StartOfWeek(d), 7))
    requires forall k' :: k' in mapOut ==> mapOut[k'] == LastCount(WeekRows(rs, cal, Exit, StartOfWeek(d), 7), k')
    ensures forall k :: 0 <= k < 7 ==> WeekBars(mapIn, mapOut)[k] == DayBar(rs, cal, StartOfWeek(d), k)
  {
    forall k | 0 <= k < 7 ensures WeekBars(mapIn, mapOut)[k] == DayBar(rs, cal, StartOfWeek(d), k) {
      WeekMapLookup(rs, cal, d, Entry, mapIn, k);
      WeekMapLookup(rs, cal, d, Exit, mapOut, k);
    }
  }

  /** The `week` branch (lines 94-157): seven bars, Monday to Sunday of the ISO week of
      today, each with the distinct users that checked in and out that day. */
  method Week(snap: Snapshot, cal: Calendar, now: Instant) returns (chart: seq<Bar>, entradas: int, salidas: int)
    ensures |chart| == 7
    ensures forall k :: 0 <= k < 7 ==> chart[k] == DayBar(snap.records, cal, StartOfWeek(cal.dayOf(now)), k)
    ensures entradas == SumEntradas(chart) && salidas == SumSalidas(chart)
  {
    var rs, d := snap.records, cal.dayOf(now);
    var start := StartOfWeek(d);
    var mapIn := FillMap(WeekRows(rs, cal, Entry, start, 7));
    var mapOut := FillMap(WeekRows(rs, cal, Exit, start, 7));
    chart := WeekBars(mapIn, mapOut);
    WeekBarsCounts(rs, cal, d, mapIn, mapOut);
    entradas := SumEntradas(chart);
    salidas := SumSalidas(chart);
  }

  // ------------------------------------------------------------------ month

  /** The week of the month of a day of the month: the `CASE` of lines 162-168 and
      178-184, cutting at the 7th, 14th, 21st and 28th. */
  function WeekNo(dom: int): (w: int)
    ensures 1 <= w <= 5
  {
    if dom <= 7 then 1 else if dom <= 14 then 2 else if dom <= 21 then 3 else if dom <= 28 then 4 else 5
  }

  /** Reference reading: seven-day weeks counted from the 1st, the fifth also taking
      anything after the 28th. */
  lemma WeekNoIsCeiling(dom: int)
    requires dom >= 1
    ensures WeekNo(dom) == Min(5, (dom + 6) / 7)
  {
    var q := (dom + 6) / 7;
    assert 7 * q <= dom + 6 < 7 * q + 7;
  }

  /** The event on `side` happened in month `month` (`date_trunc('month', ...)` equal). */
  function InMonth(cal: Calendar, side: Side, month: int): Record -> bool {
    r => EventAt(r, side).Some? && cal.monthOf(cal.dayOf(EventAt(r, side).value)) == month
  }

  /** The `week_no` of the record's event on `side` (`0` when there is none). */
  function WeekOfEvent(cal: Calendar, side: Side): Record -> int {
    r => if EventAt(r, side).Some? then WeekNo(cal.dayOfMonth(cal.dayOf(EventAt(r, side).value))) else 0
  }

  /** Raw rows (`COUNT(*)`) of the current month whose event on `side` is in week `w`. */
  function MonthCount(rs: seq<Record>, cal: Calendar, now: Instant, side: Side, w: int): nat {
    CountIn(rs, InMonth(cal, side, cal.monthOf(cal.dayOf(now))), WeekOfEvent(cal, side), w)
  }

  /** Raw rows of the current month with an event on `side`. */
  function MonthTotal(rs: seq<Record>, cal: Calendar, now: Instant, side: Side): nat {
    CountWhere(rs, InMonth(cal, side, cal.monthOf(cal.dayOf(now))))
  }

  /** The rows of the month query of one side (lines 160-191): week numbers with rows. */
  function MonthRows(rs: seq<Record>, cal: Calendar, now: Instant, side: Side): seq<Bucket<int>> {
    CountGroups(rs, InMonth(cal, side, cal.monthOf(cal.dayOf(now))), WeekOfEvent(cal, side), 1, 6)
  }

  /** The keys of a list of rows, in order. */
  function KeyList<K>(rows: seq<Bucket<K>>): (ks: seq<K>)
    ensures |ks| == |rows| && forall i :: 0 <= i < |rows| ==> ks[i] == rows[i].key
  {
    if rows == [] then [] else [rows[0].key] + KeyList(rows[1..])
  }

  /** `Math.max(...xs)` of a non-empty list. */
  function MaxOf(xs: seq<int>): (m: int)
    requires xs != []
    ensures m in xs && forall x :: x in xs ==> x <= m
  {
    if |xs| == 1 then xs[0]
    else
      assert xs == [xs[0]] + xs[1..];
      Max(xs[0], MaxOf(xs[1..]))
  }

  /** Reading back a count-groups row list finds the bucket's count, `0` outside. */
  lemma {:induction false} LastCountOfCountGroups(rs: seq<Record>, p: Record -> bool, key: Record -> int, lo: int, hi: int, k: int)
    ensures LastCount(CountGroups(rs, p, key, lo, hi), k) == if lo <= k < hi then CountIn(rs, p, key, k) else 0
    decreases hi - lo
  {
    if lo < hi {
      var g0 := CountGroups(rs, p, key, lo, hi - 1);
      var c := CountIn(rs, p, key, hi - 1);
      LastCountOfCountGroups(rs, p, key, lo, hi - 1, k);
      var before := LastCount(g0, k);
      assert before == if lo <= k < hi - 1 then CountIn(rs, p, key, k) else 0;
      var g := CountGroups(rs, p, key, lo, hi);
      if c > 0 {
        assert g == g0 + [Bucket(hi - 1, c)];
        LastCountSnoc(g0, Bucket(hi - 1, c), k);
        if k == hi - 1 {
          assert LastCount(g, k) == c;
        } else {
          assert LastCount(g, k) == before;
        }
      } else {
        assert g == g0;
      }
    }
  }

  /** The month maps, read back with `|| 0`, give the week's raw count. */
  lemma MonthMapLookup(rs: seq<Record>, cal: Calendar, now: Instant, side: Side, mp: map<int, nat>, w: int)
    requires mp.Keys == Labels(MonthRows(rs, cal, now, side))
    requires forall k :: k in mp ==> mp[k] == LastCount(MonthRows(rs, cal, now, side), k)
    requires 1 <= w <= 5
    ensures GetOr0(mp, w) == MonthCount(rs, cal, now, side, w)
  {
    GetOr0OfFill(MonthRows(rs, cal, now, side), mp, w);
    LastCountOfCountGroups(rs, InMonth(cal, side, cal.monthOf(cal.dayOf(now))), WeekOfEvent(cal, side), 1, 6, w);
  }

  /** Every event of the month falls in one of the weeks 1..5, so the five counts add
      up to the month's total. */
  lemma MonthPartition(rs: seq<Record>, cal: Calendar, now: Instant, side: Side)
    ensures SumCounts(rs, InMonth(cal, side, cal.monthOf(cal.dayOf(now))), WeekOfEvent(cal, side), 1, 6)
         == MonthTotal(rs, cal, now, side)
  {
    var p, key := InMonth(cal, side, cal.monthOf(cal.dayOf(now))), WeekOfEvent(cal, side);
    forall x | x in rs && p(x) ensures 1 <= key(x) < 6 {
      assert key(x) == WeekNo(cal.dayOfMonth(cal.dayOf(EventAt(x, side).value)));
    }
    SumCountsPartition(rs, p, key, 1, 6);
  }

  /** The label of the `w`-th bar of the month chart. */
  function WeekLabel(w: nat): string {
    "Semana " + NatToString(w)
  }

  /** The `w`-th bar of the month chart. */
  function WeekBar(rs: seq<Record>, cal: Calendar, now: Instant, w: nat): Bar {
    Bar(WeekLabel(w), MonthCount(rs, cal, now, Entry, w), MonthCount(rs, cal, now, Exit, w))
  }

  /** Week 5 has rows on either side. */
  predicate FifthWeekUsed(rs: seq<Record>, cal: Calendar, now: Instant) {
    MonthCount(rs, cal, now, Entry, 5) > 0 || MonthCount(rs, cal, now, Exit, 5) > 0
  }

  /** `Math.max(maxWeek, 4)` with `maxWeek` the largest week number among the rows of
      both queries (0 when there are none). */
  function WeeksInMonth(rowsIn: seq<Bucket<int>>, rowsOut: seq<Bucket<int>>): int {
    var all := KeyList(rowsIn) + KeyList(rowsOut);
    Max(if |all| > 0 then MaxOf(all) else 0, 4)
  }

  /** With week numbers in 1..5, there are five weeks exactly when week 5 appears. */
  lemma WeeksInMonthRange(rowsIn: seq<Bucket<int>>, rowsOut: seq<Bucket<int>>)
    requires forall i :: 0 <= i < |rowsIn| ==> 1 <= rowsIn[i].key <= 5
    requires forall i :: 0 <= i < |rowsOut| ==> 1 <= rowsOut[i].key <= 5
    ensures var n := WeeksInMonth(rowsIn, rowsOut);
      if 5 in KeyList(rowsIn) || 5 in KeyList(rowsOut) then n == 5 else n == 4
  {
    var ksIn, ksOut := KeyList(rowsIn), KeyList(rowsOut);
    var all := ksIn + ksOut;
    forall x | x in all ensures 1 <= x <= 5 {
      if x in ksIn {
        var i :| 0 <= i < |ksIn| && ksIn[i] == x;
      } else {
        var i :| 0 <= i < |ksOut| && ksOut[i] == x;
      }
    }
    var mx := if |all| > 0 then MaxOf(all) else 0;
    assert WeeksInMonth(rowsIn, rowsOut) == Max(mx, 4);
    if |all| > 0 {
      assert mx in all;
      assert mx <= 5;
      if 5 in ksIn || 5 in ksOut {
        assert 5 in all;
        assert mx == 5;
      } else {
        assert mx != 5;
      }
    }
  }

  /** Week 5 is among the rows of a side exactly when that side has rows in week 5. */
  lemma FifthWeekRow(rs: seq<Record>, cal: Calendar, now: Instant, side: Side)
    ensures 5 in KeyList(MonthRows(rs, cal, now, side)) <==> MonthCount(rs, cal, now, side, 5) > 0
  {
    var p, key := InMonth(cal, side, cal.monthOf(cal.dayOf(now))), WeekOfEvent(cal, side);
    var rows := MonthRows(rs, cal, now, side);
    var ks := KeyList(rows);
    if MonthCount(rs, cal, now, side, 5) > 0 {
      CountGroupsComplete(rs, p, key, 1, 6, 5);
      var i :| 0 <= i < |rows| && rows[i] == Bucket(5, CountIn(rs, p, key, 5));
      assert ks[i] == 5;
    }
    if 5 in ks {
      var i :| 0 <= i < |ks| && ks[i] == 5;
      assert rows[i].count == CountIn(rs, p, key, 5);
    }
  }

  /** The chart has a fifth bar exactly when week 5 has rows; otherwise four. */
  lemma WeeksInMonthCount(rs: seq<Record>, cal: Calendar, now: Instant)
    ensures var n := WeeksInMonth(MonthRows(rs, cal, now, Entry), MonthRows(rs, cal, now, Exit));
      if FifthWeekUsed(rs, cal, now) then n == 5 else n == 4
  {
    WeeksInMonthRange(MonthRows(rs, cal, now, Entry), MonthRows(rs, cal, now, Exit));
    FifthWeekRow(rs, cal, now, Entry);
    FifthWeekRow(rs, cal, now, Exit);
  }

  /** The totals of the month chart are the month's raw counts of each side. */
  lemma MonthChartTotals(rs: seq<Record>, cal: Calendar, now: Instant, chart: seq<Bar>)
    requires |chart| == 5 || (|chart| == 4 && !FifthWeekUsed(rs, cal, now))
    requires forall i :: 0 <= i < |chart| ==> chart[i] == WeekBar(rs, cal, now, i + 1)
    ensures SumEntradas(chart) == MonthTotal(rs, cal, now, Entry)
    ensures SumSalidas(chart) == MonthTotal(rs, cal, now, Exit)
  {
    var month := cal.monthOf(cal.dayOf(now));
    SumEntradasCounts(chart, rs, InMonth(cal, Entry, month), WeekOfEvent(cal, Entry), 1);
    SumSalidasCounts(chart, rs, InMonth(cal, Exit, month), WeekOfEvent(cal, Exit), 1);
    MonthPartition(rs, cal, now, Entry);
    MonthPartition(rs, cal, now, Exit);
  }

  /** `Array.from({ length: weeks }, (_, idx) => ...)` over the two week maps. */
  function MonthBars(mapIn: map<int, nat>, mapOut: map<int, nat>, weeks: nat): (chart: seq<Bar>)
    ensures |chart| == weeks
    ensures forall i :: 0 <= i < weeks ==> chart[i] == Bar(WeekLabel(i + 1), GetOr0(mapIn, i + 1), GetOr0(mapOut, i + 1))
  {
    seq(weeks, i requires 0 <= i < weeks => Bar(WeekLabel(i + 1), GetOr0(mapIn, i + 1), GetOr0(mapOut, i + 1)))
  }

  /** The bars built from the filled month maps are the weeks' raw counts. */
  lemma MonthBarsCounts(rs: seq<Record>, cal: Calendar, now: Instant, mapIn: map<int, nat>, mapOut: map<int, nat>, weeks: nat)
    requires weeks <= 5
    requires mapIn.Keys == Labels(MonthRows(rs, cal, now, Entry))
    requires forall k :: k in mapIn ==> mapIn[k] == LastCount(MonthRows(rs, cal, now, Entry), k)
    requires mapOut.Keys == Labels(MonthRows(rs, cal, now, Exit))
    requires forall k :: k in mapOut ==> mapOut[k] == LastCount(MonthRows(rs, cal, now, Exit), k)
    ensures forall i :: 0 <= i < weeks ==> MonthBars(mapIn, mapOut, weeks)[i] == WeekBar(rs, cal, now, i + 1)
  {
    forall i | 0 <= i < weeks ensures MonthBars(mapIn, mapOut, weeks)[i] == WeekBar(rs, cal, now, i + 1) {
      MonthMapLookup(rs, cal, now, Entry, mapIn, i + 1);
      MonthMapLookup(rs, cal, now, Exit, mapOut, i + 1);
    }
  }

  /** The `month` branch (lines 159-230): four bars, or five when the 29th-31st have
      rows, each with the raw check-in and check-out rows of its week of the current
      month; the totals are the month's raw rows. */
  method Month(snap: Snapshot, cal: Calendar, now: Instant) returns (chart: seq<Bar>, entradas: int, salidas: int)
    ensures |chart| == 4 || |chart| == 5
    ensures |chart| == 5 <==> FifthWeekUsed(snap.records, cal, now)
    ensures forall i :: 0 <= i < |chart| ==> chart[i] == WeekBar(snap.records, cal, now, i + 1)
    ensures entradas == MonthTotal(snap.records, cal, now, Entry)
    ensures salidas == MonthTotal(snap.records, cal, now, Exit)
  {
    var rs := snap.records;
    var rowsIn, rowsOut := MonthRows(rs, cal, now, Entry), MonthRows(rs, cal, now, Exit);
    var mapIn := FillMap(rowsIn);
    var mapOut := FillMap(rowsOut);
    WeeksInMonthCount(rs, cal, now);
    var weeks: nat := WeeksInMonth(rowsIn, rowsOut);
    chart := MonthBars(mapIn, mapOut, weeks);
    MonthBarsCounts(rs, cal, now, mapIn, mapOut, weeks);
    MonthChartTotals(rs, cal, now, chart);
    entradas := SumEntradas(chart);
    salidas := SumSalidas(chart);
  }

  // ------------------------------------------------------------------ the route

  /** `(searchParams.get("period") || "today").toLowerCase()` (line 14): an absent or
      empty parameter selects `today`. */
  function Period(param: Option<string>): (p: string)
    ensures param.None? || param.value == "" ==> p == "today"
    ensures param.Some? && param.value != "" ==> p == ToLower(param.value)
  {
    var raw := if param.None? || param.value == "" then "today" else param.value;
    assert ToLower("today") == "today" by {
      assert forall i :: 0 <= i < |"today"| ==> LowerChar("today"[i]) == "today"[i];
    }
    ToLower(raw)
  }

  /** The period is read without regard to case. */
  lemma PeriodIgnoresCase(s: string)
    ensures Period(Some(s)) == Period(Some(ToLower(s)))
  {
    if s != "" {
      ToLowerIdempotent(s);
    }
  }

  /** What the route answers. */
  datatype StatsResponse =
    | TodayView(chart: seq<Bar>, stats: TodayStats)                    // period "today"
    | WeekView(chart: seq<Bar>, entradas: int, salidas: int)           // period "week"
    | MonthView(chart: seq<Bar>, entradas: int, salidas: int)          // period "month"
    | StatsFailed                                                      // 500 "Internal server error"

  /** `GET /api/attendance_stats` (lines 13-235): a failing query gives 500; otherwise
      `today` and `week` select their branch and every other period the month. */
  method Stats(param: Option<string>, snap: Snapshot, cal: Calendar, now: Instant, backend: Backend)
    returns (status: int, resp: StatsResponse)
    requires cal.WellFormed()
    ensures backend.Down? ==> status == 500 && resp == StatsFailed
    ensures backend.Up? ==> status == 200 && !resp.StatsFailed?
    ensures backend.Up? && Period(param) == "today" ==>
      && resp.TodayView? && |resp.chart| == 24
      && (forall h :: 0 <= h < 24 ==> resp.chart[h] == Bar(HourKey(h),
            TodayCount(snap.records, cal, now, Entry, h), TodayCount(snap.records, cal, now, Exit, h)))
      && resp.stats.asistencias == CountWhere(snap.records, CheckedInOn(cal, cal.dayOf(now)))
      && resp.stats.ausencias == |snap.users| - resp.stats.asistencias
      && resp.stats.horasTotales == HoursToday(snap.records, cal, now)
      && resp.stats.horasExtras == OvertimeToday(snap.records, cal, now)
    ensures backend.Up? && Period(param) == "week" ==>
      && resp.WeekView? && |resp.chart| == 7
      && (forall k :: 0 <= k < 7 ==> resp.chart[k] == DayBar(snap.records, cal, StartOfWeek(cal.dayOf(now)), k))
      && resp.entradas == SumEntradas(resp.chart) && resp.salidas == SumSalidas(resp.chart)
    ensures backend.Up? && Period(param) != "today" && Period(param) != "week" ==>
      && resp.MonthView?
      && (|resp.chart| == 5 <==> FifthWeekUsed(snap.records, cal, now))
      && (|resp.chart| == 4 <==> !FifthWeekUsed(snap.records, cal, now))
      && (forall i :: 0 <= i < |resp.chart| ==> resp.chart[i] == WeekBar(snap.records, cal, now, i + 1))
      && resp.entradas == MonthTotal(snap.records, cal, now, Entry)
      && resp.salidas == MonthTotal(snap.records, cal, now, Exit)
  {
    if backend.Down? {
      return 500, StatsFailed;
    }
    var period := Period(param);
    if period == "today" {
      var chart, stats := Today(snap, cal, now);
      return 200, TodayView(chart, stats);
    }
    if period == "week" {
      var chart, entradas, salidas := Week(snap, cal, now);
      return 200, WeekView(chart, entradas, salidas);
    }
    var chart, entradas, salidas := Month(snap, cal, now);
    return 200, MonthView(chart, entradas, salidas);
  }
}
