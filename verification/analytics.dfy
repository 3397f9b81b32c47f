/**
 * Temporal analytics over the habit event log and the mood log: completion
 * counts over the last 7 and 30 days and the current run of consecutive days,
 * all anchored to one `today` captured once per request. Calendar days are
 * day numbers: day d - 1 is the day before day d.
 */
module Analytics {
  import opened Wrappers
  import opened HabitEvents

  // ---------------------------------------------------------------------------
  // Window counts: eachDayOfInterval, map to "present?", filter, length

  /** The days from `start` to `end`, both included, in increasing order. */
  function DayRange(start: int, end: int): seq<int>
    decreases end - start
  {
    if start > end then [] else DayRange(start, end - 1) + [end]
  }

  /** For each day, whether the set of logged dates holds it. */
  function Present(days: seq<int>, dates: set<int>): seq<bool> {
    seq(|days|, i requires 0 <= i < |days| => days[i] in dates)
  }

  /** The length of the list after `filter(Boolean)`. */
  function CountTrue(hits: seq<bool>): (n: nat)
    ensures n <= |hits|
  {
    if hits == [] then 0
    else CountTrue(hits[..|hits| - 1]) + (if hits[|hits| - 1] then 1 else 0)
  }

  /** How many days of [start, end] are logged. */
  function WindowCount(dates: set<int>, start: int, end: int): (n: nat)
    ensures n <= if start <= end then end - start + 1 else 0
  {
    DayRangeLength(start, end);
    CountTrue(Present(DayRange(start, end), dates))
  }

  lemma {:induction false} DayRangeLength(start: int, end: int)
    ensures |DayRange(start, end)| == if start <= end then end - start + 1 else 0
    decreases end - start
  {
    if start <= end {
      DayRangeLength(start, end - 1);
    }
  }

  /** Extending the window by its next day adds one exactly when that day is logged. */
  lemma WindowCountStep(dates: set<int>, start: int, end: int)
    requires start <= end
    ensures WindowCount(dates, start, end)
         == WindowCount(dates, start, end - 1) + (if end in dates then 1 else 0)
  {
    var days := DayRange(start, end - 1);
    assert DayRange(start, end) == days + [end];
    var hits := Present(days + [end], dates);
    assert hits[..|hits| - 1] == Present(days, dates);
  }

  /**
   * The count is the number of logged dates inside the window: the days that
   * `eachDayOfInterval` lists are exactly the days of [start, end].
   */
  lemma {:induction false} WindowCountIsCardinality(dates: set<int>, start: int, end: int)
    ensures WindowCount(dates, start, end) == |set d | d in dates && start <= d <= end|
    decreases end - start
  {
    if start > end {
      assert (set d | d in dates && start <= d <= end) == {};
    } else {
      WindowCountStep(dates, start, end);
      WindowCountIsCardinality(dates, start, end - 1);
      var below := set d | d in dates && start <= d <= end - 1;
      if end in dates {
        assert (set d | d in dates && start <= d <= end) == below + {end};
      } else {
        assert (set d | d in dates && start <= d <= end) == below;
      }
    }
  }

  /** A window splits into two adjacent windows. */
  lemma {:induction false} WindowSplit(dates: set<int>, start: int, mid: int, end: int)
    requires start <= mid <= end + 1
    ensures WindowCount(dates, start, end)
         == WindowCount(dates, start, mid - 1) + WindowCount(dates, mid, end)
    decreases end - start
  {
    if mid <= end {
      WindowCountStep(dates, start, end);
      WindowCountStep(dates, mid, end);
      WindowSplit(dates, start, mid, end - 1);
    }
  }

  /** A window whose every day is logged counts all its days. */
  lemma {:induction false} WindowAllPresent(dates: set<int>, start: int, end: int)
    requires forall d | start <= d <= end :: d in dates
    ensures WindowCount(dates, start, end) == if start <= end then end - start + 1 else 0
    decreases end - start
  {
    if start <= end {
      WindowCountStep(dates, start, end);
      WindowAllPresent(dates, start, end - 1);
    }
  }

  /** Only the days inside the window matter. */
  lemma {:induction false} WindowCongruent(d1: set<int>, d2: set<int>, start: int, end: int)
    requires forall d | start <= d <= end :: d in d1 <==> d in d2
    ensures WindowCount(d1, start, end) == WindowCount(d2, start, end)
    decreases end - start
  {
    if start <= end {
      WindowCountStep(d1, start, end);
      WindowCountStep(d2, start, end);
      WindowCongruent(d1, d2, start, end - 1);
    }
  }

  // ---------------------------------------------------------------------------
  // Streaks: walk back from a day while it is logged

  /**
   * The number of consecutive logged days ending at `day`: the `n` days up to
   * `day` are all logged and the day before them is not. Zero when `day` itself
   * is not logged.
   */
  function Streak(dates: set<int>, day: int): (n: nat)
    ensures forall d | day - n < d <= day :: d in dates
    ensures day - n !in dates
    decreases LoggedUpTo(dates, day)
  {
    if day in dates then
      LoggedUpToShrinks(dates, day);
      1 + Streak(dates, day - 1)
    else 0
  }

  /** The logged days up to `day`: what a backward walk from `day` can still visit. */
  function LoggedUpTo(dates: set<int>, day: int): set<int> {
    set d | d in dates && d <= day
  }

  /** Stepping back from a logged day leaves strictly fewer days to visit. */
  lemma LoggedUpToShrinks(dates: set<int>, day: int)
    requires day in dates
    ensures LoggedUpTo(dates, day - 1) < LoggedUpTo(dates, day)
  {
    assert day in LoggedUpTo(dates, day);
  }

  /** The two facts of Streak's contract pin the run length down. */
  lemma StreakUnique(dates: set<int>, day: int, n: nat)
    requires forall d | day - n < d <= day :: d in dates
    requires day - n !in dates
    ensures n == Streak(dates, day)
  {
    var m := Streak(dates, day);
    if n < m {
      assert false;
    } else if m < n {
      assert false;
    }
  }

  /** Only the days up to `day` matter; later days never change a streak. */
  lemma StreakCongruent(d1: set<int>, d2: set<int>, day: int)
    requires forall d | d <= day :: d in d1 <==> d in d2
    ensures Streak(d1, day) == Streak(d2, day)
  {
    StreakUnique(d2, day, Streak(d1, day));
  }

  /** The `while (dates.has(day))` loop of POST /predict_from_history. */
  method CurrentStreak(dates: set<int>, today: int) returns (streak: nat)
    ensures streak == Streak(dates, today)
  {
    var day := today;
    streak := 0;
    while day in dates
      invariant day == today - streak
      invariant Streak(dates, today) == streak + Streak(dates, day)
      decreases LoggedUpTo(dates, day)
    {
      LoggedUpToShrinks(dates, day);
      streak := streak + 1;
      day := day - 1;
    }
  }

  /**
   * GET /streaks: the same walk over the mood entries, each projected to its
   * calendar day; a day matches when some entry falls on it.
   */
  method MoodStreak(moodDays: seq<int>, today: int) returns (streak: nat)
    ensures streak == Streak((set d | d in moodDays), today)
  {
    ghost var dates := set d | d in moodDays;
    var day := today;
    streak := 0;
    while true
      invariant day == today - streak
      invariant Streak(dates, today) == streak + Streak(dates, day)
      decreases LoggedUpTo(dates, day)
    {
      var found := day in moodDays;
      if found {
        LoggedUpToShrinks(dates, day);
        streak := streak + 1;
        day := day - 1;
      } else {
        break;
      }
    }
  }

  // ---------------------------------------------------------------------------
  // The feature vector handed to the predictor

  datatype Signals = Signals(last7Count: nat, last30Count: nat, currentStreak: nat, weeklyFrequencyTarget: int)

  /** What the handler computes from the fetched dates. */
  function SignalsOf(dates: set<int>, today: int, target: int): Signals {
    Signals(WindowCount(dates, today - 6, today), WindowCount(dates, today - 29, today),
            Streak(dates, today), target)
  }

  /** The 7-day window lies inside the 30-day one, so its count is no larger. */
  lemma WindowBounds(dates: set<int>, today: int)
    ensures WindowCount(dates, today - 6, today) <= 7
    ensures WindowCount(dates, today - 6, today) <= WindowCount(dates, today - 29, today) <= 30
  {
    WindowSplit(dates, today - 29, today - 6, today);
  }

  /**
   * When only dates from `today - 29` on were fetched, the streak stops within
   * the 30-day window and so never exceeds the 30-day count.
   */
  lemma StreakWithinLast30(dates: set<int>, today: int)
    requires forall d | d in dates :: d >= today - 29
    ensures Streak(dates, today) <= WindowCount(dates, today - 29, today)
    ensures Streak(dates, today) <= 30
  {
    var n := Streak(dates, today);
    assert today - 30 !in dates;
    assert n <= 30;
    WindowSplit(dates, today - 29, today - n + 1, today);
    WindowAllPresent(dates, today - n + 1, today);
  }

  /** An empty log gives all zeros. */
  lemma EmptyLogSignals(today: int, target: int)
    ensures SignalsOf({}, today, target) == Signals(0, 0, 0, target)
  {
    WindowAllAbsent(today - 6, today);
    WindowAllAbsent(today - 29, today);
  }

  lemma {:induction false} WindowAllAbsent(start: int, end: int)
    ensures WindowCount({}, start, end) == 0
    decreases end - start
  {
    if start <= end {
      WindowCountStep({}, start, end);
      WindowAllAbsent(start, end - 1);
    }
  }

  /**
   * Completions logged after `today` never change the signals: two logs that
   * agree on this user's and habit's events up to `today` give equal signals.
   */
  lemma FutureEventsIgnored(log1: seq<HabitEvent>, log2: seq<HabitEvent>, user: int,
                            habitName: string, today: int, target: int)
    requires forall d | d <= today ::
      HabitEvent(user, habitName, d) in log1 <==> HabitEvent(user, habitName, d) in log2
    ensures SignalsOf(FetchDates(log1, user, habitName, today - 29), today, target)
         == SignalsOf(FetchDates(log2, user, habitName, today - 29), today, target)
  {
    var d1 := FetchDates(log1, user, habitName, today - 29);
    var d2 := FetchDates(log2, user, habitName, today - 29);
    WindowCongruent(d1, d2, today - 6, today);
    WindowCongruent(d1, d2, today - 29, today);
    StreakCongruent(d1, d2, today);
  }

  /**
   * POST /predict_from_history, up to the call of the predictor: a missing or
   * empty habit name is refused; otherwise the dates from `today - 29` on are
   * fetched once and all three signals are computed from them. The weekly
   * target defaults to 5.
   */
  method PredictFromHistory(log: EventLog, user: int, habitName: string, weeklyFrequencyTarget: Option<int>,
                            today: int) returns (r: Result<Signals, ApiError>)
    ensures habitName == [] ==> r == Failure(HabitNameRequired)
    ensures habitName != [] ==>
      r == Success(SignalsOf(FetchDates(log.rows, user, habitName, today - 29), today,
                             weeklyFrequencyTarget.GetOr(5)))
    ensures r.Success? ==>
      && r.value.last7Count <= 7
      && r.value.last7Count <= r.value.last30Count <= 30
      && r.value.currentStreak <= r.value.last30Count
  {
    if habitName == [] {
      return Failure(HabitNameRequired);
    }
    var start7 := today - 6;
    var start30 := today - 29;
    var dates := FetchDates(log.rows, user, habitName, start30);
    var last7Count := WindowCount(dates, start7, today);
    var last30Count := WindowCount(dates, start30, today);
    var streak := CurrentStreak(dates, today);
    WindowBounds(dates, today);
    StreakWithinLast30(dates, today);
    r := Success(Signals(last7Count, last30Count, streak, weeklyFrequencyTarget.GetOr(5)));
  }
}
