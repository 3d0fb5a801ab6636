/** Shared vocabulary: optional values, instants, the civil-time projections of the
    deployment's fixed time zone, the state of the storage layer, and counting over
    sequences. */
module Base {

  datatype Option<+T> = None | Some(value: T) {
    function GetOr(default: T): T {
      match this
      case Some(v) => v
      case None => default
    }
  }

  /** An instant, in whole seconds. */
  type Instant = int

  /** A civil day, numbered consecutively with day 0 = 1970-01-01 (a Thursday). */
  type Day = int

  const SecondsPerHour: int := 3600
  const SecondsPerDay: int := 86400

  /** The civil-time projections of the deployment's time zone (America/La_Paz).
      They are given functions: the database's `AT TIME ZONE` conversion and the
      JavaScript locale formatting are not part of this model. */
  datatype Calendar = Calendar(
    dayOf: Instant -> Day,       // local calendar date of an instant
    hourOf: Instant -> int,      // local hour of an instant
    monthOf: Day -> int,         // the (year, month) a local date belongs to, as one key
    dayOfMonth: Day -> int       // day of the month of a local date
  ) {
    ghost predicate WellFormed() {
      && (forall t :: 0 <= hourOf(t) < 24)
      && (forall d :: 1 <= dayOfMonth(d) <= 31)
    }
  }

  /** ISO weekday (1 = Monday .. 7 = Sunday) of a civil day. */
  function IsoWeekday(d: Day): (w: int)
    ensures 1 <= w <= 7
  {
    (d + 3) % 7 + 1
  }

  /** Euclidean division by 7 is determined by quotient and remainder. */
  lemma DivMod7(q: int, k: int)
    requires 0 <= k < 7
    ensures (7 * q + k) % 7 == k && (7 * q + k) / 7 == q
  {
  }

  /** Consecutive days have consecutive weekdays, Sunday wrapping to Monday. */
  lemma {:induction false} IsoWeekdayNext(d: Day)
    ensures IsoWeekday(d) < 7 ==> IsoWeekday(d + 1) == IsoWeekday(d) + 1
    ensures IsoWeekday(d) == 7 ==> IsoWeekday(d + 1) == 1
  {
    var q, k := (d + 3) / 7, (d + 3) % 7;
    assert d + 3 == 7 * q + k;
    if k < 6 {
      DivMod7(q, k + 1);
    } else {
      DivMod7(q + 1, 0);
    }
  }

  /** The Monday that starts the ISO week containing `d` (`date_trunc('week', ...)`). */
  function StartOfWeek(d: Day): (s: Day)
    ensures s <= d < s + 7
  {
    d - (d + 3) % 7
  }

  /** The day `k` days after the start of a week has ISO weekday `k + 1`. */
  lemma WeekdayInWeek(d: Day, k: int)
    requires 0 <= k < 7
    ensures IsoWeekday(StartOfWeek(d) + k) == k + 1
  {
    var q := (d + 3) / 7;
    assert StartOfWeek(d) + k + 3 == 7 * q + k;
    DivMod7(q, k);
  }

  /** Whether the storage layer answers or raises. */
  datatype Backend = Up | Down(message: string)

  /** Number of elements of `s` that satisfy `p`. */
  function CountWhere<T>(s: seq<T>, p: T -> bool): (n: nat)
    ensures n <= |s|
  {
    if s == [] then 0 else CountWhere(s[..|s| - 1], p) + (if p(s[|s| - 1]) then 1 else 0)
  }

  /** The elements of `s` that satisfy `p`, in order. */
  function Select<T(!new)>(s: seq<T>, p: T -> bool): (r: seq<T>)
    ensures |r| == CountWhere(s, p)
    ensures forall x :: x in r <==> x in s && p(x)
  {
    if s == [] then [] else
      var init := Select(s[..|s| - 1], p);
      assert forall x :: x in s <==> x in s[..|s| - 1] || x == s[|s| - 1];
      if p(s[|s| - 1]) then init + [s[|s| - 1]] else init
  }

  lemma CountWhereAppend<T>(s: seq<T>, x: T, p: T -> bool)
    ensures CountWhere(s + [x], p) == CountWhere(s, p) + (if p(x) then 1 else 0)
  {
    assert (s + [x])[..|s + [x]| - 1] == s;
  }

  /** If `p` implies `q`, fewer elements satisfy `p`. */
  lemma {:induction false} CountWhereMono<T>(s: seq<T>, p: T -> bool, q: T -> bool)
    requires forall x :: x in s && p(x) ==> q(x)
    ensures CountWhere(s, p) <= CountWhere(s, q)
  {
    if s != [] {
      CountWhereMono(s[..|s| - 1], p, q);
    }
  }

  /** Sum of `f` over the elements of `s`. */
  function SumOf<T>(s: seq<T>, f: T -> int): int
  {
    if s == [] then 0 else SumOf(s[..|s| - 1], f) + f(s[|s| - 1])
  }

  lemma SumOfAppend<T>(s: seq<T>, x: T, f: T -> int)
    ensures SumOf(s + [x], f) == SumOf(s, f) + f(x)
  {
    assert (s + [x])[..|s + [x]| - 1] == s;
  }

  /** A pointwise smaller summand gives a smaller sum. */
  lemma {:induction false} SumOfMono<T>(s: seq<T>, f: T -> int, g: T -> int)
    requires forall x :: x in s ==> f(x) <= g(x)
    ensures SumOf(s, f) <= SumOf(s, g)
  {
    if s != [] {
      SumOfMono(s[..|s| - 1], f, g);
    }
  }

  /** A sum of zeros is zero. */
  lemma {:induction false} SumOfZero<T>(s: seq<T>, f: T -> int)
    requires forall x :: x in s ==> f(x) == 0
    ensures SumOf(s, f) == 0
  {
    if s != [] {
      SumOfZero(s[..|s| - 1], f);
    }
  }

  /** Number of elements of `s` that satisfy `p` and fall in bucket `k` of `key`
      (a `GROUP BY key` count). */
  function CountIn<T>(s: seq<T>, p: T -> bool, key: T -> int, k: int): (n: nat)
    ensures n <= CountWhere(s, p)
  {
    if s == [] then 0
    else CountIn(s[..|s| - 1], p, key, k) + (if p(s[|s| - 1]) && key(s[|s| - 1]) == k then 1 else 0)
  }

  /** The bucket counts for keys `lo .. hi - 1`, added up. */
  function SumCounts<T>(s: seq<T>, p: T -> bool, key: T -> int, lo: int, hi: int): int
    decreases hi - lo
  {
    if hi <= lo then 0 else SumCounts(s, p, key, lo, hi - 1) + CountIn(s, p, key, hi - 1)
  }

  lemma {:induction false} SumCountsSnoc<T>(s: seq<T>, x: T, p: T -> bool, key: T -> int, lo: int, hi: int)
    ensures SumCounts(s + [x], p, key, lo, hi)
         == SumCounts(s, p, key, lo, hi) + (if p(x) && lo <= key(x) < hi then 1 else 0)
    decreases hi - lo
  {
    assert (s + [x])[..|s + [x]| - 1] == s;
    if lo < hi {
      SumCountsSnoc(s, x, p, key, lo, hi - 1);
    }
  }

  /** When every selected element falls in one of the buckets `lo .. hi - 1`, the
      bucket counts add up to the number of selected elements. */
  lemma {:induction false} SumCountsPartition<T>(s: seq<T>, p: T -> bool, key: T -> int, lo: int, hi: int)
    requires forall x :: x in s && p(x) ==> lo <= key(x) < hi
    ensures SumCounts(s, p, key, lo, hi) == CountWhere(s, p)
  {
    if s == [] {
      SumCountsEmpty(p, key, lo, hi);
    } else {
      var init, x := s[..|s| - 1], s[|s| - 1];
      assert s == init + [x];
      SumCountsPartition(init, p, key, lo, hi);
      SumCountsSnoc(init, x, p, key, lo, hi);
    }
  }

  lemma {:induction false} SumCountsEmpty<T>(p: T -> bool, key: T -> int, lo: int, hi: int)
    ensures SumCounts([], p, key, lo, hi) == 0
    decreases hi - lo
  {
    if lo < hi {
      SumCountsEmpty(p, key, lo, hi - 1);
    }
  }

  function Max(a: int, b: int): int { if a < b then b else a }
  function Min(a: int, b: int): int { if a < b then a else b }
}
