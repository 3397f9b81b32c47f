/**
 * The `habit_events` table: one row per completion of a habit by a user on a
 * calendar day, with UNIQUE(user_id, habit_name, date). Calendar days are
 * day numbers here; a completion is logged with INSERT OR IGNORE, so logging
 * the same completion again is a silent no-op.
 */
module HabitEvents {
  import opened Wrappers
  import opened Sequences

  datatype HabitEvent = HabitEvent(user: int, habitName: string, date: int)

  /** INSERT OR IGNORE: a new row is appended unless an equal one is there. */
  function Recorded(rows: seq<HabitEvent>, e: HabitEvent): seq<HabitEvent> {
    if e in rows then rows else rows + [e]
  }

  /**
   * The dates the analytics handler reads: the `date` of each row of this user
   * and habit with `date >= from`, gathered into a set.
   */
  function FetchDates(rows: seq<HabitEvent>, user: int, habitName: string, from: int): (dates: set<int>)
    ensures forall d :: d in dates <==> d >= from && HabitEvent(user, habitName, d) in rows
  {
    set e | e in rows && e.user == user && e.habitName == habitName && e.date >= from :: e.date
  }

  /**
   * Logging keeps the table free of duplicates and leaves exactly one row for
   * the logged completion, whether or not it was there already.
   */
  lemma RecordedKeepsUnique(rows: seq<HabitEvent>, e: HabitEvent)
    requires Distinct(rows)
    ensures Distinct(Recorded(rows, e))
    ensures multiset(Recorded(rows, e))[e] == 1
    ensures forall x | x != e :: multiset(Recorded(rows, e))[x] == multiset(rows)[x]
  {
    if e !in rows {
      AppendFresh(rows, e);
    }
    DistinctOccurrences(Recorded(rows, e), e);
  }

  /** Retrying a completion changes nothing. */
  lemma RecordIdempotent(rows: seq<HabitEvent>, e: HabitEvent)
    ensures Recorded(Recorded(rows, e), e) == Recorded(rows, e)
  {
  }

  class EventLog {
    var rows: seq<HabitEvent>

    ghost predicate Valid()
      reads this
    {
      Distinct(rows)  // UNIQUE(user_id, habit_name, date)
    }

    constructor ()
      ensures Valid() && rows == []
    {
      rows := [];
    }

    /**
     * POST /habit/complete. A missing or empty habit name or date is refused;
     * otherwise the completion is logged and the answer is ok, also when it
     * had been logged before.
     */
    method RecordCompletion(user: int, habitName: string, date: Option<int>) returns (r: Outcome<ApiError>)
      requires Valid()
      modifies this
      ensures Valid()
      ensures habitName == [] || date.None? ==>
        r == Fail(HabitNameAndDateRequired) && rows == old(rows)
      ensures habitName != [] && date.Some? ==>
        r == Pass && rows == Recorded(old(rows), HabitEvent(user, habitName, date.value))
    {
      if habitName == [] || date.None? {
        return Fail(HabitNameAndDateRequired);
      }
      var e := HabitEvent(user, habitName, date.value);
      RecordedKeepsUnique(rows, e);
      if e !in rows {
        rows := rows + [e];
      }
      r := Pass;
    }
  }
}
