/**
 * Pillars and the habits under them: creation with the schema's defaults, the
 * completion toggle with its simple streak counter, the grouping of a user's
 * habits under their pillars, and the titles two users' habits share.
 *
 * The streak kept on a habit row is a counter moved by the toggle alone; it is
 * not the calendar streak computed from the event log.
 */
module Habits {
  import opened Wrappers

  /**
   * Column defaults of the `pillars` table as the schema declares them. The
   * color is annotated there as 0xFF3B82F6 but the number written is
   * 0xFF2196F3, a different blue.
   */
  const SchemaDefaultColor := 4280391411
  const SchemaDefaultProgress := 0

  /** The color POST /pillars gives a pillar that names none: 0xFF3B82F6 as a 32-bit ARGB value. */
  const ServerDefaultColor := 0xFF3B82F6

  /** The column default written as the number its annotation names. */
  const CorrectedSchemaDefaultColor := 4282090230

  datatype Pillar = Pillar(owner: int, title: string, description: string, color: int, progress: int)

  datatype Habit = Habit(owner: int, pillarId: int, title: string, completed: bool, streak: int)

  // ---------------------------------------------------------------------------
  // Toggle

  function Max0(x: int): int { if x < 0 then 0 else x }

  /**
   * PATCH /habits/:habitId/toggle on one row: flip `completed`; going to
   * completed adds one to the streak, going back takes one off but never
   * below zero.
   */
  function Toggled(h: Habit): (r: Habit)
    ensures r.completed == !h.completed
    ensures r.owner == h.owner && r.pillarId == h.pillarId && r.title == h.title
    ensures h.streak >= 0 ==> r.streak >= 0
    ensures r.completed ==> r.streak == h.streak + 1
    ensures !r.completed ==> r.streak == Max0(h.streak - 1) && r.streak <= Max0(h.streak)
  {
    var nextCompleted := !h.completed;
    var nextStreak := if nextCompleted then h.streak + 1 else Max0(h.streak - 1);
    h.(completed := nextCompleted, streak := nextStreak)
  }

  /** From not completed, two toggles give back the habit as it was. */
  lemma ToggleTwiceFromIncomplete(h: Habit)
    requires !h.completed && h.streak >= 0
    ensures Toggled(h).completed && Toggled(Toggled(h)) == h
  {
  }

  /**
   * From completed, two toggles give back the habit unless its streak was
   * zero, in which case the floor at zero makes the streak come back as one.
   */
  lemma ToggleTwiceFromCompleted(h: Habit)
    requires h.completed && h.streak >= 0
    ensures h.streak >= 1 ==> Toggled(Toggled(h)) == h
    ensures h.streak == 0 ==> Toggled(Toggled(h)) == h.(streak := 1)
  {
  }

  // ---------------------------------------------------------------------------
  // Grouping habits by pillar (GET /pillars)

  /** A row of the habits SELECT, and the habit as it is shown under its pillar. */
  datatype HabitRow = HabitRow(id: int, pillarId: int, title: string, completed: bool, streak: int)
  datatype HabitView = HabitView(id: int, title: string, completed: bool, streak: int)

  /** A row of the pillars SELECT, and the pillar as it is answered. */
  datatype PillarRow = PillarRow(id: int, title: string, description: string, color: int, progress: int)
  datatype PillarView = PillarView(id: int, title: string, description: string, color: int, progress: int,
                                   habits: seq<HabitView>)

  function ViewOf(h: HabitRow): HabitView {
    HabitView(h.id, h.title, h.completed, h.streak)
  }

  /** The views of the rows whose pillar is `pid`, in the order of the rows. */
  function HabitsOf(rows: seq<HabitRow>, pid: int): seq<HabitView> {
    if rows == [] then []
    else HabitsOf(rows[..|rows| - 1], pid)
         + (if rows[|rows| - 1].pillarId == pid then [ViewOf(rows[|rows| - 1])] else [])
  }

  /** `byPillar[id] || []`: a pillar with no habit gets the empty list. */
  function Lookup(byPillar: map<int, seq<HabitView>>, pid: int): seq<HabitView> {
    if pid in byPillar then byPillar[pid] else []
  }

  /** Every row shows up under its own pillar and under no other. */
  lemma {:induction false} HabitsOfMembers(rows: seq<HabitRow>, pid: int, v: HabitView)
    ensures v in HabitsOf(rows, pid) <==> exists h | h in rows :: h.pillarId == pid && ViewOf(h) == v
  {
    if rows != [] {
      var init, last := rows[..|rows| - 1], rows[|rows| - 1];
      assert rows == init + [last];
      HabitsOfMembers(init, pid, v);
      if v in HabitsOf(rows, pid) && v !in HabitsOf(init, pid) {
        assert last.pillarId == pid && ViewOf(last) == v;
      }
      if exists h | h in rows :: h.pillarId == pid && ViewOf(h) == v {
        var h :| h in rows && h.pillarId == pid && ViewOf(h) == v;
        if h != last {
          assert h in init;
        }
      }
    }
  }

  /** Each pillar's list has one entry per row of that pillar. */
  lemma {:induction false} HabitsOfLength(rows: seq<HabitRow>, pid: int)
    ensures |HabitsOf(rows, pid)| == |set i | 0 <= i < |rows| && rows[i].pillarId == pid|
  {
    if rows != [] {
      var n := |rows| - 1;
      var init := rows[..n];
      HabitsOfLength(init, pid);
      var below := set i | 0 <= i < n && init[i].pillarId == pid;
      if rows[n].pillarId == pid {
        assert (set i | 0 <= i < |rows| && rows[i].pillarId == pid) == below + {n};
      } else {
        assert (set i | 0 <= i < |rows| && rows[i].pillarId == pid) == below;
      }
    }
  }

  /** The `for (const h of habits)` loop that fills `byPillar`. */
  method GroupByPillar(rows: seq<HabitRow>) returns (byPillar: map<int, seq<HabitView>>)
    ensures forall pid :: Lookup(byPillar, pid) == HabitsOf(rows, pid)
    ensures forall pid | pid in byPillar :: byPillar[pid] != []
  {
    byPillar := map[];
    for i := 0 to |rows|
      invariant forall pid :: Lookup(byPillar, pid) == HabitsOf(rows[..i], pid)
      invariant forall pid | pid in byPillar :: byPillar[pid] != []
    {
      var h := rows[i];
      var list := if h.pillarId in byPillar then byPillar[h.pillarId] else [];
      byPillar := byPillar[h.pillarId := list + [ViewOf(h)]];
      assert rows[..i + 1][..i] == rows[..i];
    }
    assert rows[..|rows|] == rows;
  }

  /**
   * The JavaScript part of GET /pillars, given the user's pillars and habits as
   * the two SELECTs return them: each pillar is answered with its own fields
   * and the habits of that pillar, in the order the habit rows came.
   */
  method ListPillars(pillars: seq<PillarRow>, habitRows: seq<HabitRow>) returns (views: seq<PillarView>)
    ensures |views| == |pillars|
    ensures forall i | 0 <= i < |pillars| ::
      var p := pillars[i];
      views[i] == PillarView(p.id, p.title, p.description, p.color, p.progress, HabitsOf(habitRows, p.id))
  {
    if |pillars| == 0 {
      return [];
    }
    var byPillar := GroupByPillar(habitRows);
    views := seq(|pillars|, i requires 0 <= i < |pillars| =>
      PillarView(pillars[i].id, pillars[i].title, pillars[i].description, pillars[i].color,
                 pillars[i].progress, Lookup(byPillar, pillars[i].id)));
  }

  // ---------------------------------------------------------------------------
  // Shared habits (GET /friends/:friendId/shared_habits)

  function TitlesOf(habits: map<int, Habit>, user: int): set<string> {
    set id | id in habits && habits[id].owner == user :: habits[id].title
  }

  /**
   * The self-join on equal titles, grouped by title: the titles both users
   * have a habit with. No friendship between the two is required.
   */
  function SharedTitles(habits: map<int, Habit>, self: int, friend: int): (titles: set<string>)
    ensures titles == TitlesOf(habits, self) * TitlesOf(habits, friend)
  {
    var titles := set id1, id2 | id1 in habits && id2 in habits && habits[id1].title == habits[id2].title
                                 && habits[id1].owner == self && habits[id2].owner == friend :: habits[id1].title;
    assert forall t | t in TitlesOf(habits, self) * TitlesOf(habits, friend) :: t in titles by {
      forall t | t in TitlesOf(habits, self) * TitlesOf(habits, friend) ensures t in titles {
        var id1 :| id1 in habits && habits[id1].owner == self && habits[id1].title == t;
        var id2 :| id2 in habits && habits[id2].owner == friend && habits[id2].title == t;
      }
    }
    titles
  }

  lemma SharedTitlesSymmetric(habits: map<int, Habit>, x: int, y: int)
    ensures SharedTitles(habits, x, y) == SharedTitles(habits, y, x)
  {
  }

  // ---------------------------------------------------------------------------
  // The two tables

  /**
   * POST /pillars: `description`, `color` and `progress` default to "",
   * 0xFF3B82F6 and 0 when the request leaves them out.
   */
  function NewPillar(user: int, title: string, description: Option<string>, color: Option<int>,
                     progress: Option<int>): Pillar {
    Pillar(user, title, description.GetOr(""), color.GetOr(ServerDefaultColor), progress.GetOr(0))
  }

  /**
   * A pillar row whose color and progress come from the column defaults, with
   * `columnColor` the declared color default: a row that predates the two
   * columns when the migration adds them with their DEFAULT, or a row
   * inserted without them.
   */
  function FromColumnDefaults(user: int, title: string, description: string, columnColor: int): Pillar {
    Pillar(user, title, description, columnColor, SchemaDefaultProgress)
  }

  /**
   * With the corrected column default, a pillar created without description,
   * color or progress is the same row as one that takes them from the column
   * defaults.
   */
  lemma PillarDefaultsMatchSchema(user: int, title: string)
    ensures CorrectedSchemaDefaultColor == 0xFF3B82F6
    ensures FromColumnDefaults(user, title, "", CorrectedSchemaDefaultColor)
         == NewPillar(user, title, None, None, None)
  {
  }

  /**
   * As written, a pillar row that takes its color from the column default
   * ends with 0xFF2196F3, so it differs from the pillar the server creates
   * when the request names no color.
   */
  lemma SchemaDefaultColorMismatch(user: int, title: string)
    ensures SchemaDefaultColor == 0xFF2196F3
    ensures FromColumnDefaults(user, title, "", SchemaDefaultColor).color == 0xFF2196F3
    ensures FromColumnDefaults(user, title, "", SchemaDefaultColor) != NewPillar(user, title, None, None, None)
  {
  }

  class HabitStore {
    var pillars: map<int, Pillar>
    var habits: map<int, Habit>
    var nextPillarId: int  // AUTOINCREMENT counters
    var nextHabitId: int

    /**
     * Ids are below their counters, every habit's pillar exists (the foreign
     * key), and streaks are never negative.
     */
    ghost predicate Valid()
      reads this
    {
      && nextPillarId >= 1 && nextHabitId >= 1
      && (forall id | id in pillars :: 1 <= id < nextPillarId)
      && (forall id | id in habits :: 1 <= id < nextHabitId && habits[id].pillarId in pillars
                                      && habits[id].streak >= 0)
    }

    constructor ()
      ensures Valid() && pillars == map[] && habits == map[]
    {
      pillars, habits := map[], map[];
      nextPillarId, nextHabitId := 1, 1;
    }

    /** POST /pillars. A missing title violates NOT NULL and the insert fails. */
    method CreatePillar(user: int, title: Option<string>, description: Option<string>, color: Option<int>,
                        progress: Option<int>) returns (r: Result<(int, Pillar), ApiError>)
      requires Valid()
      modifies this
      ensures Valid() && habits == old(habits) && nextHabitId == old(nextHabitId)
      ensures title.None? ==>
        r == Failure(CreatePillarFailed) && pillars == old(pillars) && nextPillarId == old(nextPillarId)
      ensures title.Some? ==>
        var p := NewPillar(user, title.value, description, color, progress);
        && r == Success((old(nextPillarId), p))
        && old(nextPillarId) !in old(pillars)
        && pillars == old(pillars)[old(nextPillarId) := p]
        && nextPillarId == old(nextPillarId) + 1
    {
      if title.None? {
        return Failure(CreatePillarFailed);
      }
      var p := NewPillar(user, title.value, description, color, progress);
      var id := nextPillarId;
      pillars := pillars[id := p];
      nextPillarId := nextPillarId + 1;
      r := Success((id, p));
    }

    /**
     * POST /pillars/:pillarId/habits: a new habit starts not completed with a
     * zero streak. The insert fails on a missing title or a pillar that does not
     * exist; nothing checks that the pillar belongs to the user.
     */
    method AddHabit(user: int, pillarId: int, title: Option<string>) returns (r: Result<int, ApiError>)
      requires Valid()
      modifies this
      ensures Valid() && pillars == old(pillars) && nextPillarId == old(nextPillarId)
      ensures title.None? || pillarId !in old(pillars) ==>
        r == Failure(AddHabitFailed) && habits == old(habits) && nextHabitId == old(nextHabitId)
      ensures title.Some? && pillarId in old(pillars) ==>
        && r == Success(old(nextHabitId))
        && old(nextHabitId) !in old(habits)
        && habits == old(habits)[old(nextHabitId) := Habit(user, pillarId, title.value, false, 0)]
        && nextHabitId == old(nextHabitId) + 1
    {
      if title.None? || pillarId !in pillars {
        return Failure(AddHabitFailed);
      }
      var id := nextHabitId;
      habits := habits[id := Habit(user, pillarId, title.value, false, 0)];
      nextHabitId := nextHabitId + 1;
      r := Success(id);
    }

    /**
     * PATCH /habits/:habitId/toggle: a habit that does not exist or belongs to
     * someone else is "not found" and nothing changes; otherwise the row is
     * rewritten with the toggled values, which are also the answer.
     */
    method Toggle(habitId: int, user: int) returns (r: Result<(bool, int), ApiError>)
      requires Valid()
      modifies this
      ensures Valid() && pillars == old(pillars)
      ensures nextPillarId == old(nextPillarId) && nextHabitId == old(nextHabitId)
      ensures habitId !in old(habits) || old(habits)[habitId].owner != user ==>
        r == Failure(HabitNotFound) && habits == old(habits)
      ensures habitId in old(habits) && old(habits)[habitId].owner == user ==>
        var h := Toggled(old(habits)[habitId]);
        r == Success((h.completed, h.streak)) && habits == old(habits)[habitId := h]
    {
      if habitId !in habits || habits[habitId].owner != user {
        return Failure(HabitNotFound);
      }
      var row := habits[habitId];
      var nextCompleted := !row.completed;
      var nextStreak := if nextCompleted then row.streak + 1 else Max0(row.streak - 1);
      habits := habits[habitId := row.(completed := nextCompleted, streak := nextStreak)];
      r := Success((nextCompleted, nextStreak));
    }

    /** GET /friends/:friendId/shared_habits. */
    method SharedHabits(self: int, friendId: int) returns (titles: set<string>)
      ensures forall t :: t in titles <==> t in TitlesOf(habits, self) && t in TitlesOf(habits, friendId)
    {
      titles := SharedTitles(habits, self, friendId);
    }
  }
}
