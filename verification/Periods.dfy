/** Budget windows: half open, in UTC, each labelled by a period key. */
module Periods {
  import opened Options
  import Decimal

  const QUARTER_MONTHS := 3
  const DAY_MICROSECONDS := 86_400_000_000

  /** A UTC date and the microseconds into that day. */
  datatype Moment = Moment(year: nat, month: nat, day: nat, time: nat) {
    predicate Valid() {
      1 <= month <= 12 && 1 <= day <= 31 && time < DAY_MICROSECONDS
    }

    predicate Before(that: Moment) {
      || year < that.year
      || (year == that.year && month < that.month)
      || (year == that.year && month == that.month && day < that.day)
      || (year == that.year && month == that.month && day == that.day && time < that.time)
    }
  }

  datatype PeriodType = Monthly | Quarterly | Custom | Lifetime

  /** The columns of a limit that choose its window. */
  datatype PeriodConfig = PeriodConfig(
    periodType: PeriodType,
    customStart: Option<Moment>,
    customEnd: Option<Moment>,
    createdAt: Option<Moment>)

  datatype PeriodWindow = PeriodWindow(
    key: string, start: Moment, end: Option<Moment>, periodType: PeriodType, isActive: bool) {

    predicate Contains(m: Moment) {
      !m.Before(start) && (end.None? || m.Before(end.value))
    }
  }

  function MonthStart(m: Moment): Moment {
    Moment(m.year, m.month, 1, 0)
  }

  function NextMonthStart(m: Moment): Moment {
    var start := MonthStart(m);
    if start.month == 12 then start.(year := start.year + 1, month := 1) else start.(month := start.month + 1)
  }

  function QuarterOf(m: Moment): nat
    requires m.Valid()
  {
    (m.month - 1) / QUARTER_MONTHS + 1
  }

  function QuarterStart(m: Moment): Moment
    requires m.Valid()
  {
    Moment(m.year, (QuarterOf(m) - 1) * QUARTER_MONTHS + 1, 1, 0)
  }

  function NextQuarterStart(m: Moment): Moment
    requires m.Valid()
  {
    var start := QuarterStart(m);
    if start.month + QUARTER_MONTHS > 12 then start.(year := start.year + 1, month := 1)
    else start.(month := start.month + QUARTER_MONTHS)
  }

  function DateDigits(m: Moment): string
    requires m.Valid()
  {
    Decimal.Show(m.year) + Decimal.TwoDigits(m.month) + Decimal.TwoDigits(m.day)
  }

  function CustomKey(start: Moment, end: Option<Moment>): string
    requires start.Valid() && (end.Some? ==> end.value.Valid())
  {
    "custom:" + (DateDigits(start) + [':'] + if end.Some? then DateDigits(end.value) else "open")
  }

  ghost predicate ValidConfig(c: PeriodConfig) {
    && (c.customStart.Some? ==> c.customStart.value.Valid())
    && (c.customEnd.Some? ==> c.customEnd.value.Valid())
    && (c.createdAt.Some? ==> c.createdAt.value.Valid())
  }

  /** The window a moment falls into; `None` for a custom period that cannot produce one. */
  function CurrentWindow(c: PeriodConfig, now: Moment): (w: Option<PeriodWindow>)
    requires now.Valid() && ValidConfig(c)
  {
    match c.periodType
    case Monthly =>
      var start := MonthStart(now);
      Some(PeriodWindow(
             Decimal.Show(start.year) + ['-'] + Decimal.TwoDigits(start.month),
             start, Some(NextMonthStart(now)), Monthly, true))
    case Quarterly =>
      var start := QuarterStart(now);
      Some(PeriodWindow(
             Decimal.Show(start.year) + ['-'] + ("Q" + Decimal.Show(QuarterOf(now))),
             start, Some(NextQuarterStart(now)), Quarterly, true))
    case Lifetime =>
      Some(PeriodWindow("lifetime", c.createdAt.GetOr(now), None, Lifetime, true))
    case Custom =>
      if c.customStart.None? then None
      else
        var start := c.customStart.value;
        if c.customEnd.Some? && !start.Before(c.customEnd.value) then None
        else
          Some(PeriodWindow(
                 CustomKey(start, c.customEnd), start, c.customEnd, Custom,
                 !now.Before(start) && (c.customEnd.None? || now.Before(c.customEnd.value))))
  }

  predicate Recurring(c: PeriodConfig) {
    c.periodType == Monthly || c.periodType == Quarterly
  }

  // ------------------------------------------------------------- windows partition time

  /** A moment lies in its own window, and the window is the same for every moment inside it. */
  lemma WindowOwnsItsMoments(c: PeriodConfig, m: Moment, n: Moment)
    requires Recurring(c) && m.Valid() && n.Valid() && ValidConfig(c)
    ensures CurrentWindow(c, m).value.Contains(m)
    ensures CurrentWindow(c, m).value.Contains(n) <==> CurrentWindow(c, n) == CurrentWindow(c, m)
  {
    if c.periodType == Quarterly {
      QuarterBounds(m);
      QuarterBounds(n);
    }
  }

  lemma QuarterBounds(m: Moment)
    requires m.Valid()
    ensures QuarterStart(m).month <= m.month < QuarterStart(m).month + QUARTER_MONTHS
    ensures QuarterStart(m).month in {1, 4, 7, 10}
  {
    var q := (m.month - 1) / 3;
    assert 0 <= q <= 3 && q * 3 <= m.month - 1 < q * 3 + 3;
    assert q == 0 || q == 1 || q == 2 || q == 3;
  }

  /** The next window starts exactly where this one ends, so no moment is skipped or shared. */
  lemma WindowsAreContiguous(c: PeriodConfig, m: Moment)
    requires Recurring(c) && m.Valid() && ValidConfig(c)
    ensures var w := CurrentWindow(c, m).value;
            && w.end.value.Valid() && w.start.Before(w.end.value)
            && CurrentWindow(c, w.end.value).value.start == w.end.value
  {
    if c.periodType == Quarterly {
      QuarterBounds(m);
      QuarterBounds(NextQuarterStart(m));
    }
  }

  /** A quarter is three consecutive months, the first starting and the third ending with it. */
  lemma QuarterIsThreeMonths(c: PeriodConfig, m: Moment)
    requires c.periodType == Quarterly && m.Valid() && ValidConfig(c)
    ensures var q := CurrentWindow(c, m).value;
            var monthly := c.(periodType := Monthly);
            var first := CurrentWindow(monthly, q.start).value;
            var second := CurrentWindow(monthly, first.end.value).value;
            var third := CurrentWindow(monthly, second.end.value).value;
            && first.start == q.start && second.start == first.end.value && third.start == second.end.value
            && third.end == q.end
  {
    QuarterBounds(m);
  }

  // --------------------------------------------------------------------- period keys

  /** Within one recurring period type a key names one window. */
  lemma KeysNameWindows(c: PeriodConfig, m: Moment, n: Moment)
    requires Recurring(c) && m.Valid() && n.Valid() && ValidConfig(c)
    ensures CurrentWindow(c, m).value.key == CurrentWindow(c, n).value.key <==>
        CurrentWindow(c, m) == CurrentWindow(c, n)
  {
    var a, b := CurrentWindow(c, m).value, CurrentWindow(c, n).value;
    if a.key == b.key {
      var ya, yb := Decimal.Show(m.year), Decimal.Show(n.year);
      assert '-' !in ya && '-' !in yb;
      if c.periodType == Monthly {
        Decimal.SplitAtSeparator(ya, Decimal.TwoDigits(m.month), yb, Decimal.TwoDigits(n.month), '-');
        Decimal.TwoDigitsInjective(m.month, n.month);
      } else {
        var qa, qb := "Q" + Decimal.Show(QuarterOf(m)), "Q" + Decimal.Show(QuarterOf(n));
        Decimal.SplitAtSeparator(ya, qa, yb, qb, '-');
        assert Decimal.Show(QuarterOf(m)) == qa[1..] && Decimal.Show(QuarterOf(n)) == qb[1..];
        Decimal.ShowInjective(QuarterOf(m), QuarterOf(n));
        QuarterBounds(m);
        QuarterBounds(n);
      }
      Decimal.ShowInjective(m.year, n.year);
    }
  }

  /** Keys of different period types never collide, and no key holds the separator of row keys. */
  lemma KeysOfTypesDiffer(c: PeriodConfig, d: PeriodConfig, m: Moment, n: Moment)
    requires m.Valid() && n.Valid() && ValidConfig(c) && ValidConfig(d)
    requires CurrentWindow(c, m).Some? && CurrentWindow(d, n).Some?
    ensures c.periodType != d.periodType ==> CurrentWindow(c, m).value.key != CurrentWindow(d, n).value.key
    ensures '|' !in CurrentWindow(c, m).value.key
  {
    KeyShape(c, m);
    KeyShape(d, n);
  }

  /** What the first character and the character after the year say about a key. */
  lemma KeyShape(c: PeriodConfig, m: Moment)
    requires m.Valid() && ValidConfig(c) && CurrentWindow(c, m).Some?
    ensures var key := CurrentWindow(c, m).value.key;
            && key != [] && '|' !in key
            && (c.periodType == Lifetime <==> key[0] == 'l')
            && (c.periodType == Custom <==> key[0] == 'c')
            && (c.periodType == Quarterly <==> 'Q' in key)
  {
    match c.periodType
    case Monthly => YearFirst(Decimal.Show(m.year), Decimal.TwoDigits(m.month));
    case Quarterly =>
      var tail := "Q" + Decimal.Show(QuarterOf(m));
      YearFirst(Decimal.Show(m.year), tail);
      assert tail[0] == 'Q' && tail[0] in tail;
    case Lifetime =>
    case Custom =>
      DigitsOnly(c.customStart.value);
      if c.customEnd.Some? { DigitsOnly(c.customEnd.value); }
      CustomShape(DateDigits(c.customStart.value), if c.customEnd.Some? then DateDigits(c.customEnd.value) else "open");
  }

  lemma YearFirst(year: string, tail: string)
    requires year != [] && (forall ch :: ch in year ==> Decimal.IsDigit(ch))
    requires forall ch :: ch in tail ==> Decimal.IsDigit(ch) || ch == 'Q'
    ensures var key := year + ['-'] + tail;
            key[0] != 'l' && key[0] != 'c' && '|' !in key && ('Q' in key <==> 'Q' in tail)
  {
    assert year[0] in year;
  }

  lemma CustomShape(start: string, end: string)
    requires forall ch :: ch in start ==> Decimal.IsDigit(ch)
    requires end == "open" || forall ch :: ch in end ==> Decimal.IsDigit(ch)
    ensures var key := "custom:" + (start + [':'] + end);
            key[0] == 'c' && '|' !in key && 'Q' !in key
  {
    var key := "custom:" + (start + [':'] + end);
    assert key[0] == "custom:"[0];
  }

  lemma DigitsOnly(m: Moment)
    requires m.Valid()
    ensures forall ch :: ch in DateDigits(m) ==> Decimal.IsDigit(ch)
  {
  }

  lemma DateDigitsName(m: Moment, n: Moment)
    requires m.Valid() && n.Valid()
    ensures DateDigits(m) == DateDigits(n) <==> m.year == n.year && m.month == n.month && m.day == n.day
  {
    var a, b := DateDigits(m), DateDigits(n);
    if a == b {
      var k := |a|;
      assert a[..k - 4] == Decimal.Show(m.year) && b[..k - 4] == Decimal.Show(n.year);
      assert a[k - 4..k - 2] == Decimal.TwoDigits(m.month) && b[k - 4..k - 2] == Decimal.TwoDigits(n.month);
      assert a[k - 2..] == Decimal.TwoDigits(m.day) && b[k - 2..] == Decimal.TwoDigits(n.day);
      Decimal.ShowInjective(m.year, n.year);
      Decimal.TwoDigitsInjective(m.month, n.month);
      Decimal.TwoDigitsInjective(m.day, n.day);
    }
  }

  predicate SameDate(a: Option<Moment>, b: Option<Moment>) {
    (a.None? && b.None?) ||
    (a.Some? && b.Some? && a.value.year == b.value.year && a.value.month == b.value.month && a.value.day == b.value.day)
  }

  /**
   A custom key names the dates of its window and drops the time of day, so two custom windows
   share a key exactly when their dates agree, whether or not the windows are equal.
   */
  lemma CustomKeysNameDates(c: PeriodConfig, d: PeriodConfig, now: Moment)
    requires c.periodType == Custom && d.periodType == Custom && now.Valid() && ValidConfig(c) && ValidConfig(d)
    requires CurrentWindow(c, now).Some? && CurrentWindow(d, now).Some?
    ensures CurrentWindow(c, now).value.key == CurrentWindow(d, now).value.key <==>
            SameDate(c.customStart, d.customStart) && SameDate(c.customEnd, d.customEnd)
  {
    var ka, kb := CurrentWindow(c, now).value.key, CurrentWindow(d, now).value.key;
    var sa, sb := DateDigits(c.customStart.value), DateDigits(d.customStart.value);
    var ea := if c.customEnd.Some? then DateDigits(c.customEnd.value) else "open";
    var eb := if d.customEnd.Some? then DateDigits(d.customEnd.value) else "open";
    DigitsOnly(c.customStart.value);
    DigitsOnly(d.customStart.value);
    DateDigitsName(c.customStart.value, d.customStart.value);
    if c.customEnd.Some? { DigitsOnly(c.customEnd.value); }
    if d.customEnd.Some? { DigitsOnly(d.customEnd.value); }
    if c.customEnd.Some? && d.customEnd.Some? { DateDigitsName(c.customEnd.value, d.customEnd.value); }
    assert 'o' in "open" by { assert "open"[0] == 'o'; }
    assert ka[7..] == sa + [':'] + ea && kb[7..] == sb + [':'] + eb;
    if ka == kb {
      assert ':' !in sa && ':' !in sb;
      Decimal.SplitAtSeparator(sa, ea, sb, eb, ':');
    }
  }

  lemma BeforeChains(a: Moment, b: Moment, c: Moment)
    ensures !b.Before(a) && !c.Before(b) ==> !c.Before(a)
    ensures !b.Before(a) && b.Before(c) ==> a.Before(c)
  {
  }

  /**
   A custom limit keeps one key, and so one budget, for its whole life, and its window opens once:
   a moment between two at which it is open finds it open.
   */
  lemma CustomPeriodOpensOnce(c: PeriodConfig, early: Moment, between: Moment, late: Moment)
    requires c.periodType == Custom && ValidConfig(c) && early.Valid() && between.Valid() && late.Valid()
    requires !between.Before(early) && !late.Before(between) && CurrentWindow(c, early).Some?
    ensures CurrentWindow(c, between).Some? && CurrentWindow(c, late).Some?
    ensures CurrentWindow(c, early).value.key == CurrentWindow(c, between).value.key
    ensures CurrentWindow(c, early).value.isActive && CurrentWindow(c, late).value.isActive ==>
              CurrentWindow(c, between).value.isActive
  {
    BeforeChains(c.customStart.value, early, between);
    if c.customEnd.Some? {
      BeforeChains(between, late, c.customEnd.value);
    }
  }

  /** A window is active exactly while the moment is inside it; a lifetime window always is. */
  lemma ActiveIffInside(c: PeriodConfig, now: Moment)
    requires now.Valid() && ValidConfig(c) && CurrentWindow(c, now).Some?
    ensures var w := CurrentWindow(c, now).value;
            w.periodType == c.periodType && (w.isActive <==> c.periodType == Lifetime || w.Contains(now))
  {
    if Recurring(c) {
      WindowOwnsItsMoments(c, now, now);
    }
  }

  /** A custom window holds exactly the moments between its dates, and exists for ordered dates only. */
  lemma CustomWindowIs(c: PeriodConfig, now: Moment, m: Moment)
    requires c.periodType == Custom && now.Valid() && ValidConfig(c)
    ensures CurrentWindow(c, now).Some? <==>
              c.customStart.Some? && (c.customEnd.Some? ==> c.customStart.value.Before(c.customEnd.value))
    ensures CurrentWindow(c, now).Some? ==>
              (CurrentWindow(c, now).value.Contains(m) <==>
               !m.Before(c.customStart.value) && (c.customEnd.Some? ==> m.Before(c.customEnd.value)))
  {
  }

  /** A lifetime window runs from the limit's creation on and never ends, under one key. */
  lemma LifetimeWindowIs(c: PeriodConfig, now: Moment, later: Moment, m: Moment)
    requires c.periodType == Lifetime && now.Valid() && later.Valid() && ValidConfig(c) && c.createdAt.Some?
    ensures CurrentWindow(c, now) == CurrentWindow(c, later) && CurrentWindow(c, now).Some?
    ensures CurrentWindow(c, now).value.Contains(m) <==> !m.Before(c.createdAt.value)
  {
  }

  /** A month starts at midnight on its first day; a quarter in January, April, July or October. */
  lemma RecurringStarts(c: PeriodConfig, now: Moment)
    requires Recurring(c) && now.Valid() && ValidConfig(c)
    ensures var start := CurrentWindow(c, now).value.start;
            && start.day == 1 && start.time == 0 && start.year == now.year
            && (c.periodType == Monthly ==> start.month == now.month)
            && (c.periodType == Quarterly ==> start.month % 3 == 1 && start.month <= now.month < start.month + 3)
  {
    if c.periodType == Quarterly {
      QuarterBounds(now);
    }
  }
}
