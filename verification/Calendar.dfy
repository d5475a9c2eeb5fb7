/** The proleptic Gregorian calendar in UTC, by month: a month is numbered
    `12 * year + (month - 1)`, a time is in seconds since 1970-01-01. */
module Calendar {

  const DAY := 86_400

  /** Days from 0000-01-01 to 1970-01-01. */
  const EPOCH_DAY := 719_528

  predicate Leap(y: int)
  {
    y % 4 == 0 && (y % 100 != 0 || y % 400 == 0)
  }

  function DaysInMonth(m: int): (n: int)
    ensures 28 <= n <= 31
  {
    var k := m % 12;
    if k == 1 then if Leap(m / 12) then 29 else 28
    else if k == 3 || k == 5 || k == 8 || k == 10 then 30
    else 31
  }

  /** The day number of the first day of month `m`: each month begins where the
      one before it ends, and month 0 begins on day 0. */
  function MonthStart(m: int): int
    decreases if m >= 0 then m else -m
  {
    if m == 0 then 0
    else if m > 0 then MonthStart(m - 1) + DaysInMonth(m - 1)
    else MonthStart(m + 1) - DaysInMonth(m)
  }

  lemma NextMonth(m: int)
    ensures MonthStart(m + 1) == MonthStart(m) + DaysInMonth(m)
  {
  }

  /** The twelve months of every year, leap day included. */
  lemma MonthLengths(y: int, k: int)
    requires 0 <= k < 12
    ensures MonthStart(12 * y + k + 1) - MonthStart(12 * y + k) ==
      (if k == 1 && y % 4 == 0 && (y % 100 != 0 || y % 400 == 0) then 29
       else [31, 28, 31, 30, 31, 30, 31, 31, 30, 31, 30, 31][k])
  {
    NextMonth(12 * y + k);
    hide MonthStart;
    assert (12 * y + k) / 12 == y && (12 * y + k) % 12 == k;
  }

  // ----- the month of a day ------------------------------------------------

  function Climb(d: int, m: int): (r: int)
    requires MonthStart(m) <= d
    ensures MonthStart(r) <= d < MonthStart(r + 1)
    decreases d - MonthStart(m)
  {
    NextMonth(m);
    if d < MonthStart(m + 1) then m else Climb(d, m + 1)
  }

  function Descend(d: int, m: int): (r: int)
    requires d < MonthStart(m + 1)
    ensures MonthStart(r) <= d < MonthStart(r + 1)
    decreases MonthStart(m + 1) - d
  {
    NextMonth(m);
    if MonthStart(m) <= d then m else Descend(d, m - 1)
  }

  function DayOf(ts: int): int { ts / DAY + EPOCH_DAY }

  function MonthOf(ts: int): (m: int)
    ensures MonthStart(m) <= DayOf(ts) < MonthStart(m + 1)
  {
    if MonthStart(0) <= DayOf(ts) then Climb(DayOf(ts), 0) else Descend(DayOf(ts), -1)
  }

  lemma {:induction false} StartsIncrease(m: int, m': int)
    requires m <= m'
    ensures MonthStart(m') >= MonthStart(m) + 28 * (m' - m)
    decreases m' - m
  {
    if m < m' {
      StartsIncrease(m, m' - 1);
      NextMonth(m' - 1);
    }
  }

  lemma MonthIs(ts: int, m: int)
    requires MonthStart(m) <= DayOf(ts) < MonthStart(m + 1)
    ensures MonthOf(ts) == m
  {
    var r := MonthOf(ts);
    if r < m { StartsIncrease(r + 1, m); }
    if m < r { StartsIncrease(m + 1, r); }
  }

  /** Later months hold later times only. */
  lemma MonthMonotone(a: int, b: int)
    ensures a <= b ==> MonthOf(a) <= MonthOf(b)
    ensures MonthOf(a) < MonthOf(b) ==> a < b
  {
    if MonthOf(b) < MonthOf(a) { StartsIncrease(MonthOf(b) + 1, MonthOf(a)); }
    if MonthOf(a) < MonthOf(b) { StartsIncrease(MonthOf(a) + 1, MonthOf(b)); }
  }

  /** `checked_add_months` and `checked_sub_months`: same day of the month, or the
      last one if that month is shorter; same time of day. */
  function AddMonths(ts: int, n: int): int
  {
    var m := MonthOf(ts) + n;
    var offset := DayOf(ts) - MonthStart(MonthOf(ts));
    var clamped := if offset < DaysInMonth(m) then offset else DaysInMonth(m) - 1;
    (MonthStart(m) + clamped - EPOCH_DAY) * DAY + ts % DAY
  }

  lemma AddMonthsMonth(ts: int, n: int)
    ensures MonthOf(AddMonths(ts, n)) == MonthOf(ts) + n
  {
    var m := MonthOf(ts) + n;
    NextMonth(m);
    MonthIs(AddMonths(ts, n), m);
  }

  // ----- the closed form ----------------------------------------------------

  function DaysBeforeYear(y: int): int
  {
    365 * y + (y + 3) / 4 - (y + 99) / 100 + (y + 399) / 400
  }

  /** Days of the year before month `k` (0 is January). */
  function DaysBeforeMonth(k: int, leap: bool): int
    requires 0 <= k < 12
  {
    [0, 31, 59, 90, 120, 151, 181, 212, 243, 273, 304, 334][k] + if leap && k >= 2 then 1 else 0
  }

  lemma YearLength(y: int)
    ensures DaysBeforeYear(y + 1) == DaysBeforeYear(y) + if Leap(y) then 366 else 365
  {
    Step4(y);
    Step100(y);
    Step400(y);
    Divisors(y);
  }

  lemma Step4(y: int)
    ensures (y + 4) / 4 == (y + 3) / 4 + if y % 4 == 0 then 1 else 0
  {
  }

  lemma Step100(y: int)
    ensures (y + 100) / 100 == (y + 99) / 100 + if y % 100 == 0 then 1 else 0
  {
  }

  lemma Step400(y: int)
    ensures (y + 400) / 400 == (y + 399) / 400 + if y % 400 == 0 then 1 else 0
  {
  }

  lemma Divisors(y: int)
    ensures y % 400 == 0 ==> y % 100 == 0
    ensures y % 100 == 0 ==> y % 4 == 0
  {
  }

  /** The closed form grows by the length of each month. */
  lemma ClosedFormStep(y: int, k: int)
    requires 0 <= k < 12
    ensures DaysBeforeYear(y) + DaysBeforeMonth(k, Leap(y)) + DaysInMonth(12 * y + k) ==
      if k == 11 then DaysBeforeYear(y + 1) else DaysBeforeYear(y) + DaysBeforeMonth(k + 1, Leap(y))
  {
    assert (12 * y + k) / 12 == y && (12 * y + k) % 12 == k;
    YearLength(y);
  }

  lemma {:induction false} MonthStartClosedForm(y: int, k: int)
    requires 0 <= k < 12
    ensures MonthStart(12 * y + k) == DaysBeforeYear(y) + DaysBeforeMonth(k, Leap(y))
    decreases if 12 * y + k >= 0 then 12 * y + k else -(12 * y + k)
  {
    hide DaysInMonth, DaysBeforeYear, DaysBeforeMonth, Leap;
    var m := 12 * y + k;
    if m > 0 {
      var py, pk := if k == 0 then y - 1 else y, if k == 0 then 11 else k - 1;
      MonthStartClosedForm(py, pk);
      ClosedFormStep(py, pk);
      assert m - 1 == 12 * py + pk;
    } else if m < 0 {
      var ny, nk := if k == 11 then y + 1 else y, if k == 11 then 0 else k + 1;
      MonthStartClosedForm(ny, nk);
      ClosedFormStep(y, k);
      assert m + 1 == 12 * ny + nk;
    }
    JanuaryFirst(y);
    JanuaryFirst(y + 1);
    JanuaryFirst(0);
  }

  lemma JanuaryFirst(y: int)
    ensures DaysBeforeMonth(0, Leap(y)) == 0 && DaysBeforeYear(0) == 0
  {
  }

  /** The numbering agrees with the epoch. */
  lemma EpochDay()
    ensures MonthStart(12 * 1970) == EPOCH_DAY
  {
    hide MonthStart;
    MonthStartClosedForm(1970, 0);
  }

  /** Timestamp 0 lies in January 1970. */
  lemma EpochMonth()
    ensures MonthOf(0) == 12 * 1970
  {
    EpochDay();
    hide MonthStart;
    NextMonth(12 * 1970);
    MonthIs(0, 12 * 1970);
  }

  // ----- how long months are -----------------------------------------------

  lemma YearsGap(y: int, y': int)
    requires y <= y'
    ensures DaysBeforeYear(y') >= DaysBeforeYear(y) + 365 * (y' - y)
    decreases y' - y
  {
    if y < y' {
      YearsGap(y, y' - 1);
      YearLength(y' - 1);
    }
  }

  /** How far the months up to `k` run ahead of 30 days each. */
  function Excess(k: int, leap: bool): (e: int)
    requires 0 <= k < 12
    ensures -1 <= e <= 5
  {
    DaysBeforeMonth(k, leap) - 30 * k
  }

  lemma ExcessDropsByTwo(k: int, k': int, leap: bool)
    requires 0 <= k <= k' < 12
    ensures Excess(k', leap) >= Excess(k, leap) - 2
  {
  }

  /** `n` months in a row are at least 30 n - 2 days, leap year or not. */
  lemma MonthsAreLong(m: int, n: nat)
    ensures MonthStart(m + n) - MonthStart(m) >= 30 * n - 2
  {
    var y, k, y', k' := m / 12, m % 12, (m + n) / 12, (m + n) % 12;
    assert m == 12 * y + k && m + n == 12 * y' + k';
    MonthStartClosedForm(y, k);
    MonthStartClosedForm(y', k');
    YearsGap(y, y');
    if y == y' { ExcessDropsByTwo(k, k', Leap(y)); }
    assert MonthStart(m) == DaysBeforeYear(y) + Excess(k, Leap(y)) + 30 * k;
    assert MonthStart(m + n) == DaysBeforeYear(y') + Excess(k', Leap(y')) + 30 * k';
  }

  /** A month before now minus (period / 30 + 2) months lies wholly before the
      cutoff of `period` days, on every date of every year. */
  lemma RetentionMargin(now: int, period: nat, ts: int)
    requires MonthOf(ts) < MonthOf(now) - (period / 30 + 2)
    ensures ts < now - period * DAY
  {
    var n := period / 30 + 2;
    var threshold := MonthOf(now) - n;
    MonthsAreLong(threshold, n);
    StartsIncrease(MonthOf(ts) + 1, threshold);
    assert DayOf(ts) < MonthStart(threshold) <= DayOf(now) - (30 * n - 2);
    assert DayOf(ts) < DayOf(now) - period;
  }

  lemma Early2023()
    ensures MonthStart(24_276) == 738_886 && MonthStart(24_277) == 738_917
    ensures MonthStart(24_278) == 738_945 && MonthStart(24_279) == 738_976
  {
    hide MonthStart;
    MonthStartClosedForm(2023, 0);
    NextMonth(24_276);
    NextMonth(24_277);
    NextMonth(24_278);
  }

  /** One month less would not do: with a period of 29 days, at midnight of
      1 March 2023 the month before February still holds a message (31 January,
      midnight) that is not older than the cutoff. */
  lemma MarginIsNeeded()
    ensures MonthOf(1_675_123_200) < MonthOf(1_677_628_800) - (29 / 30 + 1)
    ensures 1_675_123_200 >= 1_677_628_800 - 29 * DAY
  {
    Early2023();
    assert DayOf(1_675_123_200) == 738_916 && DayOf(1_677_628_800) == 738_945;
    MonthIs(1_675_123_200, 24_276);
    MonthIs(1_677_628_800, 24_278);
  }
}
