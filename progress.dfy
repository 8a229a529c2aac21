/** Daily XP and activity flags, the streak and the weekly XP total, and the
    goal, minutes and hours controls, as written in app.v7.js:78-122,
    app.v6.js:105-173 and app.v3.js:83-179 (the three builds share this code
    except where noted).

    The builds keep two maps under the store keys "fd_xp_by_day" and
    "fd_flags_by_day", both keyed by "YYYY-MM-DD" day keys; here they are
    keyed by day number (Dates.KeyOrder shows the keys and the days
    correspond one to one and in order). Every function re-reads its map from
    the store and writes it back whole; the tracker below holds what the store
    would answer, and the store itself is modelled in ResilientStore and
    PlainStore. "Today" is a parameter. */
module Progress {
  import opened Values
  import opened Dates

  /** One day's activity flags, by flag name. */
  type FlagRecord = map<string, bool>

  /** The record `dailyFlags` answers for a day with none stored. */
  const AllFalse: FlagRecord :=
    map["listening" := false, "speaking" := false, "reading" := false, "vocab" := false, "phrases" := false]

  /** The five flag names the builds use. */
  const FlagNames: set<string> := {"listening", "speaking", "reading", "vocab", "phrases"}

  /** `getXP(d)`: `map[d] || 0`. */
  function XpOf(xp: map<Day, int>, d: Day): (n: int)
    ensures d !in xp ==> n == 0
    ensures d in xp ==> n == xp[d]
  {
    if d in xp then xp[d] else 0
  }

  /** `dailyFlags(d)`: the stored record, or the all-false one. */
  function FlagsOf(flags: map<Day, FlagRecord>, d: Day): (r: FlagRecord)
    ensures d in flags ==> r == flags[d]
    ensures d !in flags ==> r.Keys == FlagNames && forall f :: f in r ==> !r[f]
  {
    if d in flags then flags[d] else AllFalse
  }

  /** The XP map after `addXP(n, …)` on day `d`. */
  function AddToDay(xp: map<Day, int>, d: Day, n: int): map<Day, int> {
    xp[d := XpOf(xp, d) + n]
  }

  /** The flags map after `addXP(…, flag)` on day `d`: the day's record, or
      an all-false one, with `flag` raised. */
  function RaiseFlag(flags: map<Day, FlagRecord>, d: Day, flag: string): map<Day, FlagRecord> {
    flags[d := FlagsOf(flags, d)[flag := true]]
  }

  /** `addXP` adds to today's total and touches no other day. */
  lemma AddToDayEffect(xp: map<Day, int>, d: Day, n: int, e: Day)
    ensures XpOf(AddToDay(xp, d, n), e) == if e == d then XpOf(xp, d) + n else XpOf(xp, e)
    ensures AddToDay(xp, d, n).Keys == xp.Keys + {d}
  {
  }

  /** Raising a flag sets exactly that flag of that day; the day's other
      flags and all other days keep their values, and a day that had no
      record gets the all-false record first. */
  lemma RaiseFlagEffect(flags: map<Day, FlagRecord>, d: Day, flag: string, e: Day, g: string)
    ensures var r := FlagsOf(RaiseFlag(flags, d, flag), e);
      && (e != d ==> r == FlagsOf(flags, e))
      && (e == d ==> flag in r && r[flag])
      && (e == d && g != flag ==> (g in r <==> g in FlagsOf(flags, d)) &&
                                  (g in r ==> r[g] == FlagsOf(flags, d)[g]))
  {
  }

  /** Reset-day as app.v7.js:120 writes it: today's record is re-stored
      as `dailyFlags()` answers it. */
  function ResetFlagsKeep(flags: map<Day, FlagRecord>, d: Day): map<Day, FlagRecord> {
    flags[d := FlagsOf(flags, d)]
  }

  /** Reset-day as app.v3.js:177 and app.v6.js:171 write it: today gets the
      all-false record. */
  function ResetFlags(flags: map<Day, FlagRecord>, d: Day): map<Day, FlagRecord> {
    flags[d := AllFalse]
  }

  /** The app.v7.js reset keeps every flag already raised today: a day with
      a record is left exactly as it was, and only a day without one gets
      the all-false record. */
  lemma ResetFlagsKeepIsNoOpOnRecordedDay(flags: map<Day, FlagRecord>, d: Day)
    ensures d in flags ==> ResetFlagsKeep(flags, d) == flags
    ensures d !in flags ==> ResetFlagsKeep(flags, d) == ResetFlags(flags, d)
  {
  }

  /** A concrete day shows it: a listening flag raised today survives the
      app.v7.js reset, so the listening button stays disabled. */
  lemma ResetKeepsRaisedFlag(d: Day)
    ensures var flags := RaiseFlag(map[], d, "listening");
      FlagsOf(ResetFlagsKeep(flags, d), d)["listening"]
  {
    var flags := RaiseFlag(map[], d, "listening");
    assert FlagsOf(flags, d) == AllFalse["listening" := true];
  }

  /** The reset of app.v3.js and app.v6.js lowers every flag of the day,
      whatever was raised, and leaves other days alone. */
  lemma ResetFlagsClears(flags: map<Day, FlagRecord>, d: Day, e: Day)
    ensures var r := FlagsOf(ResetFlags(flags, d), e);
      && (e == d ==> r.Keys == FlagNames && forall f :: f in r ==> !r[f])
      && (e != d ==> r == FlagsOf(flags, e))
  {
  }

  // ---------------------------------------------------------------------
  // Goal, minutes and hours controls

  /** The "+" button: `goal + 5`. */
  function GoalUp(g: int): int {
    g + 5
  }

  /** The "−" button: `Math.max(10, goal - 5)`. */
  function GoalDown(g: int): (r: int)
    ensures r >= 10
    ensures r <= g ==> r == g - 5 || g < 15
  {
    if g - 5 < 10 then 10 else g - 5
  }

  /** Lowering the goal never goes below 10, and the two buttons undo each
      other wherever the floor does not interfere. */
  lemma GoalButtons(g: int)
    ensures GoalDown(g) >= 10
    ensures g >= 10 ==> GoalDown(GoalUp(g)) == g
    ensures g >= 15 ==> GoalUp(GoalDown(g)) == g
    ensures g < 15 ==> GoalDown(g) == 10
  {
  }

  /** The content of a number field after `parseInt(value || default, 10)`:
      the field was empty (the default is used), it parsed to a whole
      number, or it did not parse (NaN). */
  datatype Entry = Blank | Whole(n: int) | NotANumber

  /** `Math.max(floor, parseInt(value || def, 10))`, with NaN (which
      Math.max propagates) as `None`. */
  function ClampEntry(e: Entry, floor: int, def: int): (r: Option<int>)
    requires def >= floor
    ensures r.None? <==> e.NotANumber?
    ensures r.Some? ==> r.value >= floor
    ensures e.Whole? && e.n >= floor ==> r == Some(e.n)
    ensures e.Whole? && e.n < floor ==> r == Some(floor)
    ensures e.Blank? ==> r == Some(def)
  {
    match e
    case Blank => Some(def)
    case Whole(n) => Some(if n < floor then floor else n)
    case NotANumber => None
  }

  /** Saving what a save produced changes nothing more. */
  lemma ClampEntryIdempotent(e: Entry, floor: int, def: int)
    requires def >= floor
    ensures var r := ClampEntry(e, floor, def);
      r.Some? ==> ClampEntry(Whole(r.value), floor, def) == r
  {
  }

  // ---------------------------------------------------------------------
  // Week totals

  /** The sum of `m` over `keys`, in no particular order. */
  ghost function SumOver(m: map<Day, int>, keys: set<Day>): int
    requires keys <= m.Keys
    decreases keys
  {
    if keys == {} then 0
    else
      NonEmptyHasMember(keys);
      var k :| k in keys; m[k] + SumOver(m, keys - {k})
  }

  /** A set of days that is not empty has a member. */
  lemma NonEmptyHasMember(s: set<Day>)
    requires s != {}
    ensures exists d :: d in s
  {
    if forall d :: d !in s {
      assert false;
    }
  }

  /** Any key can be taken out first. */
  lemma {:induction false} SumOverRemove(m: map<Day, int>, keys: set<Day>, k: Day)
    requires keys <= m.Keys && k in keys
    ensures SumOver(m, keys) == m[k] + SumOver(m, keys - {k})
    decreases keys
  {
    var j :| j in keys && SumOver(m, keys) == m[j] + SumOver(m, keys - {j});
    if j != k {
      SumOverRemove(m, keys - {j}, k);
      SumOverRemove(m, keys - {k}, j);
      assert keys - {j} - {k} == keys - {k} - {j};
    }
  }

  /** The keys of `m` that `keep` selects. */
  function Where(m: map<Day, int>, keep: Day -> bool): (s: set<Day>)
    ensures s <= m.Keys
  {
    set k | k in m && keep(k)
  }

  /** The accumulator loop of `calcThisWeekXP` (`sum += v || 0` over
      `Object.entries`), visiting the entries in an order left open. */
  method SumWhere(m: map<Day, int>, keep: Day -> bool) returns (sum: int)
    ensures sum == SumOver(m, Where(m, keep))
  {
    var rest := m.Keys;
    sum := 0;
    while rest != {}
      invariant rest <= m.Keys
      invariant sum + SumOver(m, set k | k in rest && keep(k)) == SumOver(m, Where(m, keep))
      decreases rest
    {
      NonEmptyHasMember(rest);
      var k :| k in rest;
      var sel := set j | j in rest && keep(j);
      if keep(k) {
        SumOverRemove(m, sel, k);
        assert sel - {k} == set j | j in rest - {k} && keep(j);
        sum := sum + m[k];
      } else {
        assert sel == set j | j in rest - {k} && keep(j);
      }
      rest := rest - {k};
    }
  }

  /** The test `calcThisWeekXP` applies to an entry: the same week number
      and the same calendar year (`getFullYear`) as today. */
  predicate SameWeekAsWritten(k: Day, today: Day) {
    WeekNumber(k) == WeekNumber(today) && YearOf(k) == YearOf(today)
  }

  /** The intended test: the same ISO week, that is the same week number in
      the same week-numbering year. */
  predicate SameIsoWeek(k: Day, today: Day) {
    WeekNumber(k) == WeekNumber(today) && WeekYear(k) == WeekYear(today)
  }

  /** The same ISO week means the same Monday-to-Sunday span. */
  lemma SameIsoWeekIsSameSpan(k: Day, today: Day)
    ensures SameIsoWeek(k, today) <==> Monday(today) <= k < Monday(today) + 7
  {
    IsoWeekIdentity(k, today);
    MondayOfSpan(today, Monday(today));
    MondayOfSpan(k, Monday(today));
  }

  /** A week across New Year shows the calendar-year test is not the ISO
      week: on Monday 2024-12-30 (day 20087, in ISO week 1 of 2025) it
      counts Monday 2024-01-01 (day 19723, a year earlier) and leaves out
      Wednesday 2025-01-01 (day 20089, two days later). */
  lemma CalendarYearTestMisplacesWeek()
    ensures SameWeekAsWritten(19723, 20087) && !SameIsoWeek(19723, 20087)
    ensures !SameWeekAsWritten(20089, 20087) && SameIsoWeek(20089, 20087)
  {
    assert YearStart(2024) == 19723 && YearStart(2025) == 20089 && YearStart(2026) == 20454;
    YearOfUnique(19723, 2024);
    YearOfUnique(19726, 2024);
    YearOfUnique(20087, 2024);
    YearOfUnique(20089, 2025);
    YearOfUnique(20090, 2025);
    assert WeekThursday(19723) == 19726 && WeekThursday(20087) == 20090 && WeekThursday(20089) == 20090;
  }

  // ---------------------------------------------------------------------
  // The tracker

  class Tracker {
    var xp: map<Day, int>
    var flags: map<Day, FlagRecord>
    var goal: int
    /** `None` stands for a NaN that a save stored. */
    var dailyMinutes: Option<int>
    var weeklyHours: Option<int>

    /** The defaults a fresh install writes: goal 30, 40 minutes a day,
        8 hours a week, no XP and no flags. */
    constructor ()
      ensures xp == map[] && flags == map[] && goal == 30
      ensures dailyMinutes == Some(40) && weeklyHours == Some(8)
    {
      xp := map[];
      flags := map[];
      goal := 30;
      dailyMinutes := Some(40);
      weeklyHours := Some(8);
    }

    function GetXP(d: Day): int
      reads this
    {
      XpOf(xp, d)
    }

    function DailyFlags(d: Day): FlagRecord
      reads this
    {
      FlagsOf(flags, d)
    }

    /** `setXP(val, d)`. */
    method SetXP(val: int, d: Day)
      modifies this
      ensures xp == old(xp)[d := val]
      ensures flags == old(flags) && goal == old(goal)
      ensures dailyMinutes == old(dailyMinutes) && weeklyHours == old(weeklyHours)
    {
      xp := xp[d := val];
    }

    /** `addXP(n, flag)`: a flag that is absent or empty (falsy) leaves the
        flags untouched. */
    method AddXP(today: Day, n: int, flag: Option<string>)
      modifies this
      ensures xp == AddToDay(old(xp), today, n)
      ensures flags == if flag.Some? && flag.value != "" then RaiseFlag(old(flags), today, flag.value) else old(flags)
      ensures goal == old(goal) && dailyMinutes == old(dailyMinutes) && weeklyHours == old(weeklyHours)
    {
      SetXP(GetXP(today) + n, today);
      if flag.Some? && flag.value != "" {
        var record := DailyFlags(today);
        flags := flags[today := record[flag.value := true]];
      }
    }

    /** Reset-day of app.v3.js and app.v6.js. */
    method ResetDay(today: Day)
      modifies this
      ensures xp == old(xp)[today := 0]
      ensures flags == ResetFlags(old(flags), today)
      ensures goal == old(goal) && dailyMinutes == old(dailyMinutes) && weeklyHours == old(weeklyHours)
    {
      SetXP(0, today);
      flags := flags[today := AllFalse];
    }

    /** Reset-day of app.v7.js, which stores `dailyFlags()` back. */
    method ResetDayKeepFlags(today: Day)
      modifies this
      ensures xp == old(xp)[today := 0]
      ensures flags == ResetFlagsKeep(old(flags), today)
      ensures goal == old(goal) && dailyMinutes == old(dailyMinutes) && weeklyHours == old(weeklyHours)
    {
      SetXP(0, today);
      var record := DailyFlags(today);
      flags := flags[today := record];
    }

    method IncGoal()
      modifies this
      ensures goal == GoalUp(old(goal))
      ensures xp == old(xp) && flags == old(flags)
      ensures dailyMinutes == old(dailyMinutes) && weeklyHours == old(weeklyHours)
    {
      goal := goal + 5;
    }

    method DecGoal()
      modifies this
      ensures goal == GoalDown(old(goal))
      ensures xp == old(xp) && flags == old(flags)
      ensures dailyMinutes == old(dailyMinutes) && weeklyHours == old(weeklyHours)
    {
      goal := if goal - 5 < 10 then 10 else goal - 5;
    }

    /** The daily-minutes save: at least 10, 40 for an empty field. */
    method SaveDailyMinutes(e: Entry)
      modifies this
      ensures dailyMinutes == ClampEntry(e, 10, 40)
      ensures xp == old(xp) && flags == old(flags) && goal == old(goal) && weeklyHours == old(weeklyHours)
    {
      dailyMinutes := ClampEntry(e, 10, 40);
    }

    /** The weekly-hours save: at least 1, 8 for an empty field. */
    method SaveWeeklyHours(e: Entry)
      modifies this
      ensures weeklyHours == ClampEntry(e, 1, 8)
      ensures xp == old(xp) && flags == old(flags) && goal == old(goal) && dailyMinutes == old(dailyMinutes)
    {
      weeklyHours := ClampEntry(e, 1, 8);
    }

    /** `calcStreak(goal)`: walks back from today while the day's XP
        reaches the goal. With a goal of 0 or less every day passes, and
        only the end of the range of dates stops the walk; the goal is
        therefore required positive. */
    method Streak(today: Day) returns (s: nat)
      requires goal > 0
      ensures forall d :: today - s < d <= today ==> GetXP(d) >= goal
      ensures GetXP(today - s) < goal
      ensures s <= |xp|
    {
      s := 0;
      while GetXP(today - s) >= goal
        invariant forall d :: today - s < d <= today ==> GetXP(d) >= goal
        invariant s <= |xp|
        decreases |xp| - s
      {
        forall d | today - (s + 1) < d <= today
          ensures XpOf(xp, d) >= goal
        {
          assert GetXP(d) >= goal;
        }
        StreakWithinMap(xp, today, s + 1, goal);
        s := s + 1;
      }
    }

    /** `calcThisWeekXP()` as written: entries in today's week number and
        today's calendar year. */
    method ThisWeekXP(today: Day) returns (sum: int)
      ensures sum == SumOver(xp, Where(xp, k => SameWeekAsWritten(k, today)))
    {
      sum := SumWhere(xp, k => SameWeekAsWritten(k, today));
    }

    /** The weekly total as intended: the entries of today's ISO week. */
    method ThisIsoWeekXP(today: Day) returns (sum: int)
      ensures sum == SumOver(xp, set k | k in xp && Monday(today) <= k < Monday(today) + 7)
    {
      sum := SumWhere(xp, k => SameIsoWeek(k, today));
      forall k | k in xp
        ensures SameIsoWeek(k, today) <==> Monday(today) <= k < Monday(today) + 7
      {
        SameIsoWeekIsSameSpan(k, today);
      }
      assert Where(xp, k => SameIsoWeek(k, today)) == set k | k in xp && Monday(today) <= k < Monday(today) + 7;
    }
  }

  /** A run of `n` days each reaching a positive goal needs `n` entries. */
  lemma StreakWithinMap(xp: map<Day, int>, today: Day, n: nat, goal: int)
    requires goal > 0
    requires forall d :: today - n < d <= today ==> XpOf(xp, d) >= goal
    ensures n <= |xp|
  {
    forall d | today - n < d <= today
      ensures d in xp.Keys
    {
      assert XpOf(xp, d) >= goal;
    }
    RunWithin(xp.Keys, today - n + 1, today + 1);
  }

  /** A set holding every day of `lo .. hi - 1` has at least `hi - lo`
      members. */
  lemma {:induction false} RunWithin(keys: set<Day>, lo: Day, hi: Day)
    requires lo <= hi
    requires forall d :: lo <= d < hi ==> d in keys
    ensures hi - lo <= |keys|
    decreases hi - lo
  {
    if lo < hi {
      RunWithin(keys - {hi - 1}, lo, hi - 1);
    }
  }
}
