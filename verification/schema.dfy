/**
 * The schema migration of the database module: `ensureColumn`, which adds a
 * column to a table only when no column of that name exists yet, and the
 * backfill of friend codes for users that have none.
 *
 * The catalog maps each table name to its column names in order. SQLite keeps
 * the column names of one table distinct ignoring ASCII case, while
 * `ensureColumn` looks for an existing column with `===`, which respects case.
 */
module Schema {
  import opened Wrappers
  import opened Sequences

  /** The characters JavaScript's `\s` matches. */
  predicate IsSpace(c: char) {
    var n := c as int;
    || 9 <= n <= 13 || n == 0x20 || n == 0xA0 || n == 0x1680 || 0x2000 <= n <= 0x200A
    || n == 0x2028 || n == 0x2029 || n == 0x202F || n == 0x205F || n == 0x3000 || n == 0xFEFF
  }

  /**
   * `columnDef.split(/\s+/)[0]`: the longest prefix of the definition without
   * whitespace (empty when the definition starts with whitespace).
   */
  function ColumnName(def: string): (name: string)
    ensures name <= def
    ensures forall i | 0 <= i < |name| :: !IsSpace(name[i])
    ensures |name| < |def| ==> IsSpace(def[|name|])
  {
    if def == [] || IsSpace(def[0]) then [] else [def[0]] + ColumnName(def[1..])
  }

  /** The errors the ALTER of `ensureColumn` can hand to its callback. */
  datatype SchemaError =
    | NoSuchTable        // the table is not there
    | DuplicateColumn    // "duplicate column name": the name differs from one there only in case
    | ConstraintRefused  // "Cannot add a UNIQUE column" or "Cannot add a PRIMARY KEY column"

  /** SQLite's case folding of identifiers: ASCII letters only. */
  function LowerChar(c: char): (d: char)
    ensures 'A' <= c <= 'Z' ==> d as int == c as int + 32
    ensures !('A' <= c <= 'Z') ==> d == c
  {
    if 'A' <= c <= 'Z' then (c as int + 32) as char else c
  }

  function Lower(s: string): (r: string)
    ensures |r| == |s|
    ensures forall i | 0 <= i < |s| :: r[i] == LowerChar(s[i])
  {
    if s == [] then [] else [LowerChar(s[0])] + Lower(s[1..])
  }

  /** The column names of a table, folded. */
  function Folded(cols: seq<string>): (r: seq<string>)
    ensures |r| == |cols|
    ensures forall i | 0 <= i < |cols| :: r[i] == Lower(cols[i])
  {
    if cols == [] then [] else [Lower(cols[0])] + Folded(cols[1..])
  }

  /** SQLite's test for a clash: some column has the same name ignoring case. */
  predicate NameTaken(cols: seq<string>, name: string) {
    Lower(name) in Folded(cols)
  }

  type Tables = map<string, seq<string>>

  /** Within one table no two column names are equal ignoring case. */
  ghost predicate WellFormed(tables: Tables) {
    forall t | t in tables :: Distinct(Folded(tables[t]))
  }

  /** Names distinct ignoring case are distinct. */
  lemma FoldedDistinct(cols: seq<string>)
    requires Distinct(Folded(cols))
    ensures Distinct(cols)
  {
    forall i, j | 0 <= i < j < |cols| ensures cols[i] != cols[j] {
      assert Folded(cols)[i] != Folded(cols)[j];
    }
  }

  /** Folding an appended name appends its folding. */
  lemma FoldedAppend(cols: seq<string>, name: string)
    ensures Folded(cols + [name]) == Folded(cols) + [Lower(name)]
  {
    var f, g := Folded(cols + [name]), Folded(cols) + [Lower(name)];
    forall i | 0 <= i < |cols| ensures f[i] == g[i] {
      assert (cols + [name])[i] == cols[i];
    }
    assert f[|cols|] == g[|cols|];
  }

  /** A name that clashes with none is not there. */
  lemma UntakenAbsent(cols: seq<string>, name: string)
    requires !NameTaken(cols, name)
    ensures name !in cols
  {
    forall i | 0 <= i < |cols| ensures cols[i] != name {
      assert Folded(cols)[i] != Lower(name);
    }
  }

  /** Adding a name that clashes with none keeps the names distinct ignoring case. */
  lemma AppendUntaken(cols: seq<string>, name: string)
    requires Distinct(Folded(cols)) && !NameTaken(cols, name)
    ensures Distinct(Folded(cols + [name]))
    ensures name !in cols
  {
    FoldedAppend(cols, name);
    AppendFresh(Folded(cols), Lower(name));
    UntakenAbsent(cols, name);
  }

  /** Whether `w` occurs in `s` as a run of consecutive characters. */
  predicate Mentions(s: string, w: string)
    decreases |s|
  {
    if |s| < |w| then false else s[..|w|] == w || Mentions(s[1..], w)
  }

  /** A run of `w` at position `i` of `s` is an occurrence. */
  lemma {:induction false} MentionsAt(s: string, w: string, i: nat)
    requires i + |w| <= |s| && s[i..i + |w|] == w
    ensures Mentions(s, w)
    decreases i
  {
    if i > 0 {
      assert s[1..][i - 1..i - 1 + |w|] == s[i..i + |w|];
      MentionsAt(s[1..], w, i - 1);
    }
  }

  /**
   * SQLite's ALTER TABLE ADD COLUMN refuses a column with a UNIQUE or
   * PRIMARY KEY constraint, whatever the table holds.
   */
  predicate AddColumnRefused(def: string) {
    Mentions(def, "UNIQUE") || Mentions(def, "PRIMARY KEY")
  }

  /**
   * The catalog after `ensureColumn(table, def)`: the column is added when the
   * table exists, has no column of that name even ignoring case, and the ALTER
   * accepts the definition. PRAGMA table_info lists no column for a missing
   * table, so the ALTER is tried and fails there.
   */
  function AfterEnsureColumn(tables: Tables, table: string, def: string): Tables {
    var name := ColumnName(def);
    if table in tables && !NameTaken(tables[table], name) && !AddColumnRefused(def)
    then tables[table := tables[table] + [name]]
    else tables
  }

  /** Running it again changes nothing. */
  lemma EnsureColumnIdempotent(tables: Tables, table: string, def: string)
    ensures AfterEnsureColumn(AfterEnsureColumn(tables, table, def), table, def)
         == AfterEnsureColumn(tables, table, def)
  {
    var name := ColumnName(def);
    if table in tables && !NameTaken(tables[table], name) && !AddColumnRefused(def) {
      var cols := tables[table] + [name];
      assert Folded(cols)[|cols| - 1] == Lower(name);
    }
  }

  /**
   * On an existing table the column is there exactly once afterwards unless
   * it was missing and the ALTER refused it (a clash in case, or a refused
   * constraint), the columns already there keep their order, and other tables
   * are untouched.
   */
  lemma EnsureColumnExactlyOnce(tables: Tables, table: string, def: string)
    requires WellFormed(tables)
    requires table in tables
    ensures var after, name := AfterEnsureColumn(tables, table, def), ColumnName(def);
      && WellFormed(after)
      && after.Keys == tables.Keys
      && multiset(after[table])[name]
           == (if name in tables[table] || (!NameTaken(tables[table], name) && !AddColumnRefused(def))
               then 1 else 0)
      && tables[table] <= after[table]
      && (forall t | t in tables && t != table :: after[t] == tables[t])
  {
    var after, name := AfterEnsureColumn(tables, table, def), ColumnName(def);
    if !NameTaken(tables[table], name) && !AddColumnRefused(def) {
      AppendUntaken(tables[table], name);
    }
    FoldedDistinct(after[table]);
    DistinctOccurrences(after[table], name);
  }

  /**
   * Asking for a column whose name differs from an existing one only in case
   * leaves the catalog as it was: `===` misses the existing column and SQLite
   * refuses the duplicate.
   */
  lemma CaseVariantNotAdded()
    ensures AfterEnsureColumn(map["journals" := ["mood"]], "journals", "MOOD TEXT")
         == map["journals" := ["mood"]]
  {
    ColumnNameOfWord("MOOD", " TEXT");
    assert "MOOD" + " TEXT" == "MOOD TEXT";
    assert Lower("MOOD") == "mood" == Lower("mood");
    assert Folded(["mood"]) == ["mood"];
  }

  class Catalog {
    var tables: Tables

    ghost predicate Valid()
      reads this
    {
      WellFormed(tables)
    }

    constructor (initial: Tables)
      requires WellFormed(initial)
      ensures Valid() && tables == initial
    {
      tables := initial;
    }

    /** `ensureColumn(table, columnDef, cb)`: the outcome is what `cb` receives. */
    method EnsureColumn(table: string, columnDef: string) returns (r: Outcome<SchemaError>)
      requires Valid()
      modifies this
      ensures Valid()
      ensures tables == AfterEnsureColumn(old(tables), table, columnDef)
      ensures r.Pass? <==> table in tables && ColumnName(columnDef) in tables[table]
      ensures r.Fail? ==>
        r.error == if table !in old(tables) then NoSuchTable
                   else if NameTaken(old(tables)[table], ColumnName(columnDef)) then DuplicateColumn
                   else ConstraintRefused
    {
      var columnName := ColumnName(columnDef);
      var columns := if table in tables then tables[table] else [];
      var found := columnName in columns;  // rows.some(r => r.name === columnName)
      if found {
        return Pass;
      }
      if table !in tables {
        return Fail(NoSuchTable);
      }
      if NameTaken(tables[table], columnName) {
        return Fail(DuplicateColumn);
      }
      if AddColumnRefused(columnDef) {
        return Fail(ConstraintRefused);
      }
      AppendUntaken(tables[table], columnName);
      tables := tables[table := tables[table] + [columnName]];
      r := Pass;
    }
  }

  /**
   * The backfill's effect: users whose code was NULL now have the code drawn
   * for them, everyone else keeps theirs, and no user is added or removed.
   */
  ghost predicate Backfilled(before: map<int, Option<string>>, after: map<int, Option<string>>,
                             draw: int -> string) {
    && after.Keys == before.Keys
    && forall id | id in before :: after[id] == if before[id].None? then Some(draw(id)) else before[id]
  }

  /** After a backfill no user is left without a code, and no code already there changed. */
  lemma BackfillLeavesNoNull(before: map<int, Option<string>>, after: map<int, Option<string>>,
                             draw: int -> string)
    requires Backfilled(before, after, draw)
    ensures forall id | id in after :: after[id].Some?
    ensures forall id | id in before && before[id].Some? :: after[id] == before[id]
  {
  }

  /** The users table's friend codes; None is NULL. */
  class Users {
    var friendCode: map<int, Option<string>>

    constructor (initial: map<int, Option<string>>)
      ensures friendCode == initial
    {
      friendCode := initial;
    }

    /**
     * The backfill loop: `selected` is the id column of
     * `SELECT id FROM users WHERE friend_code IS NULL`, in whatever order the
     * store returns it, and each selected user gets the code `draw(id)` drawn
     * for them.
     */
    method BackfillFriendCodes(selected: seq<int>, draw: int -> string)
      requires forall id :: id in selected <==> id in friendCode && friendCode[id].None?
      modifies this
      ensures Backfilled(old(friendCode), friendCode, draw)
    {
      for i := 0 to |selected|
        invariant friendCode.Keys == old(friendCode).Keys
        invariant forall id | id in friendCode ::
          friendCode[id] == if id in selected[..i] then Some(draw(id)) else old(friendCode)[id]
      {
        var id := selected[i];
        friendCode := friendCode[id := Some(draw(id))];  // UPDATE users SET friend_code = ? WHERE id = ?
        assert selected[..i + 1] == selected[..i] + [id];
      }
      assert selected[..|selected|] == selected;
    }
  }

  /** The column definition the friend-code migration passes to `ensureColumn`. */
  const FriendCodeDef := "friend_code TEXT UNIQUE"

  /** The same column without the constraint SQLite refuses on ADD COLUMN. */
  const CorrectedFriendCodeDef := "friend_code TEXT"

  /** A definition that starts with a word and then whitespace names the column by that word. */
  lemma {:induction false} ColumnNameOfWord(word: string, rest: string)
    requires forall i | 0 <= i < |word| :: !IsSpace(word[i])
    requires rest == [] || IsSpace(rest[0])
    ensures ColumnName(word + rest) == word
  {
    if word != [] {
      assert (word + rest)[1..] == word[1..] + rest;
      ColumnNameOfWord(word[1..], rest);
    }
  }

  /** A string lacking one of the characters of `w` has no occurrence of `w`. */
  lemma {:induction false} NotMentioned(s: string, w: string, c: char)
    requires c in w && c !in s
    ensures !Mentions(s, w)
    decreases |s|
  {
    if |s| >= |w| {
      assert c !in s[..|w|];
      assert s[1..] <= s[1..] && forall x | x in s[1..] :: x in s;
      NotMentioned(s[1..], w, c);
    }
  }

  /** The column `friend_code TEXT UNIQUE` is named `friend_code`. */
  lemma FriendCodeColumnName()
    ensures ColumnName(FriendCodeDef) == "friend_code"
  {
    var word, rest := "friend_code", " TEXT UNIQUE";
    assert forall i | 0 <= i < |word| :: !IsSpace(word[i]);
    assert IsSpace(rest[0]);
    ColumnNameOfWord(word, rest);
    assert word + rest == FriendCodeDef;
  }

  /** So is the column `friend_code TEXT`. */
  lemma CorrectedFriendCodeColumnName()
    ensures ColumnName(CorrectedFriendCodeDef) == "friend_code"
  {
    var word, rest := "friend_code", " TEXT";
    assert forall i | 0 <= i < |word| :: !IsSpace(word[i]);
    assert IsSpace(rest[0]);
    ColumnNameOfWord(word, rest);
    assert word + rest == CorrectedFriendCodeDef;
  }

  /** The definition as written carries UNIQUE, which the ALTER refuses. */
  lemma FriendCodeDefRefused()
    ensures AddColumnRefused(FriendCodeDef)
  {
    var def := FriendCodeDef;
    assert def[17..23] == "UNIQUE";
    MentionsAt(def, "UNIQUE", 17);
  }

  /** The corrected definition carries neither UNIQUE nor PRIMARY KEY. */
  lemma CorrectedFriendCodeDefAccepted()
    ensures !AddColumnRefused(CorrectedFriendCodeDef)
  {
    var def := CorrectedFriendCodeDef;
    assert 'Q' !in def && 'Y' !in def;
    NotMentioned(def, "UNIQUE", 'Q');
    NotMentioned(def, "PRIMARY KEY", 'Y');
  }

  /**
   * As written, the migration can never add the column: on a `users` table
   * without `friend_code` (which is how the table is created) the ALTER is
   * refused and the catalog stays as it was.
   */
  lemma FriendCodeColumnNeverAdded(tables: Tables)
    requires "users" in tables && "friend_code" !in tables["users"]
    ensures AfterEnsureColumn(tables, "users", FriendCodeDef) == tables
  {
    FriendCodeDefRefused();
  }

  /**
   * With the corrected definition the column is there exactly once afterwards,
   * unless a column whose name differs from it only in case is in the way.
   */
  lemma CorrectedFriendCodeColumnAdded(tables: Tables)
    requires WellFormed(tables) && "users" in tables
    ensures var after, cols := AfterEnsureColumn(tables, "users", CorrectedFriendCodeDef), tables["users"];
      && WellFormed(after)
      && multiset(after["users"])["friend_code"]
           == if "friend_code" in cols || !NameTaken(cols, "friend_code") then 1 else 0
  {
    CorrectedFriendCodeDefAccepted();
    CorrectedFriendCodeColumnName();
    EnsureColumnExactlyOnce(tables, "users", CorrectedFriendCodeDef);
  }

  /**
   * The friend-code migration as written: add the `friend_code` column to
   * `users` if it is missing and, when that succeeds, backfill codes for users
   * without one. `selected` is what the backfill's SELECT returns. Since the
   * ALTER is refused, the backfill runs only when the column was already there.
   */
  method AddFriendCodes(catalog: Catalog, users: Users, selected: seq<int>, draw: int -> string)
    requires catalog.Valid()
    requires forall id :: id in selected <==> id in users.friendCode && users.friendCode[id].None?
    modifies catalog, users
    ensures catalog.Valid()
    ensures catalog.tables == old(catalog.tables)
    ensures var present := "users" in old(catalog.tables) && "friend_code" in old(catalog.tables)["users"];
      && (present ==> Backfilled(old(users.friendCode), users.friendCode, draw))
      && (!present ==> users.friendCode == old(users.friendCode))
  {
    FriendCodeColumnName();
    FriendCodeDefRefused();
    var r := catalog.EnsureColumn("users", FriendCodeDef);
    if r == Pass {
      users.BackfillFriendCodes(selected, draw);
    }
  }

  /**
   * The migration with the corrected definition: whenever the `users` table
   * exists and no column differing from `friend_code` only in case is in the
   * way, afterwards it has the `friend_code` column and every user has a code.
   */
  method AddFriendCodesCorrected(catalog: Catalog, users: Users, selected: seq<int>, draw: int -> string)
    requires catalog.Valid()
    requires forall id :: id in selected <==> id in users.friendCode && users.friendCode[id].None?
    modifies catalog, users
    ensures catalog.Valid()
    ensures catalog.tables == AfterEnsureColumn(old(catalog.tables), "users", CorrectedFriendCodeDef)
    ensures var before := old(catalog.tables);
      var added := "users" in before
        && ("friend_code" in before["users"] || !NameTaken(before["users"], "friend_code"));
      && (added ==>
            && "friend_code" in catalog.tables["users"]
            && Backfilled(old(users.friendCode), users.friendCode, draw)
            && forall id | id in users.friendCode :: users.friendCode[id].Some?)
      && (!added ==> users.friendCode == old(users.friendCode))
  {
    CorrectedFriendCodeColumnName();
    ghost var before := catalog.tables;
    var r := catalog.EnsureColumn("users", CorrectedFriendCodeDef);
    if "users" in before {
      CorrectedFriendCodeColumnAdded(before);
    }
    if r == Pass {
      users.BackfillFriendCodes(selected, draw);
      BackfillLeavesNoNull(old(users.friendCode), users.friendCode, draw);
    }
  }
}
