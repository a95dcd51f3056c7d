/**
 * The `Database` result store of database.py. Its two tables are modelled as
 * maps keyed by user id: `u_id` is UNIQUE in both, so each user has at most
 * one progress row and at most one comparison row.
 *
 * The connection, cursor and commits are not modelled; each method is one
 * committed change (or none) to the two maps.
 */
module ResultStore {

  /** A platform user id (`u_id INTEGER NOT NULL`). */
  type UserId = int

  /** How an INSERT into the comparison table ends. */
  datatype InsertOutcome = Inserted | UniqueViolation

  /** `SELECT progress FROM progress WHERE u_id = u`, or 0 when no row matches. */
  function ProgressIn(progress: map<UserId, int>, u: UserId): int
  {
    if u in progress then progress[u] else 0
  }

  /** `SELECT result FROM comparison WHERE u_id = u`, or '' when no row matches. */
  function ResultIn(comparison: map<UserId, string>, u: UserId): string
  {
    if u in comparison then comparison[u] else ""
  }

  class Database {
    /** The `progress` table: user id to progress. */
    var progress: map<UserId, int>
    /** The `comparison` table: user id to the stored result text. */
    var comparison: map<UserId, string>

    /**
     * `CREATE TABLE IF NOT EXISTS` keeps whatever rows the tables already hold,
     * so a new store starts from the given existing contents.
     */
    constructor (existingProgress: map<UserId, int>, existingComparison: map<UserId, string>)
      ensures progress == existingProgress && comparison == existingComparison
    {
      progress := existingProgress;
      comparison := existingComparison;
    }

    /**
     * Upsert: UPDATE the user's row; when no row matched, INSERT one. Every
     * other user's progress and the whole comparison table are unchanged.
     */
    method SetProgress(u: UserId, p: int)
      modifies this
      ensures progress == old(progress)[u := p]
      ensures comparison == old(comparison)
    {
      var rowcount := 0;
      if u in progress {
        progress := progress[u := p];
        rowcount := 1;
      }
      if rowcount < 1 {
        assert u !in progress;  // so the INSERT cannot break UNIQUE(u_id)
        progress := progress[u := p];
      }
    }

    /** The user's progress, 0 for a user with no row. */
    method GetProgress(u: UserId) returns (p: int)
      ensures p == ProgressIn(progress, u)
    {
      if u in progress {
        p := progress[u];
      } else {
        p := 0;
      }
    }

    /**
     * Insert-only: a user without a result gets one; for a user who already
     * has one the UNIQUE constraint rejects the INSERT and nothing changes.
     * Results once stored are never altered, and progress is untouched.
     */
    method InsertResult(u: UserId, result: string) returns (outcome: InsertOutcome)
      modifies this
      ensures outcome == Inserted <==> u !in old(comparison)
      ensures outcome == Inserted ==> comparison == old(comparison)[u := result]
      ensures outcome == UniqueViolation ==> comparison == old(comparison)
      ensures forall v :: v in old(comparison) ==> v in comparison && comparison[v] == old(comparison)[v]
      ensures progress == old(progress)
    {
      if u in comparison {
        outcome := UniqueViolation;
      } else {
        comparison := comparison[u := result];
        outcome := Inserted;
      }
    }

    /** The user's stored result, '' for a user with no row. */
    method GetResult(u: UserId) returns (result: string)
      ensures result == ResultIn(comparison, u)
    {
      if u in comparison {
        result := comparison[u];
      } else {
        result := "";
      }
    }

    /** Whether the user has a comparison row. */
    method HasResult(u: UserId) returns (found: bool)
      ensures found <==> u in comparison
    {
      found := u in comparison;
    }
  }

  /** After an upsert, the user reads back the value just written, whether or not a row existed. */
  lemma SetThenGetProgress(progress: map<UserId, int>, u: UserId, p: int)
    ensures ProgressIn(progress[u := p], u) == p
    ensures forall v :: v != u ==> ProgressIn(progress[u := p], v) == ProgressIn(progress, v)
  {
  }

  /** Upserting the same value twice leaves the table as upserting it once. */
  lemma SetProgressIdempotent(progress: map<UserId, int>, u: UserId, p: int)
    ensures progress[u := p][u := p] == progress[u := p]
  {
  }

  /** A stored result reads back, and a user without one reads '' and has no row. */
  lemma InsertThenGetResult(comparison: map<UserId, string>, u: UserId, r: string)
    requires u !in comparison
    ensures ResultIn(comparison, u) == ""
    ensures u in comparison[u := r] && ResultIn(comparison[u := r], u) == r
  {
  }

  /** On the class: an upsert is read back by `get_progress`, whether or not the user had a row. */
  method UpsertThenRead(db: Database, u: UserId, p: int) returns (read: int)
    modifies db
    ensures read == p
    ensures db.comparison == old(db.comparison)
  {
    db.SetProgress(u, p);
    read := db.GetProgress(u);
    SetThenGetProgress(old(db.progress), u, p);
  }

  /**
   * On the class: a second insert for the same user is always rejected, and
   * `get_result` then returns the user's earlier result if there was one,
   * otherwise the first inserted text.
   */
  method InsertTwice(db: Database, u: UserId, first: string, second: string)
    returns (outcome1: InsertOutcome, outcome2: InsertOutcome, read: string)
    modifies db
    ensures outcome1 == Inserted <==> u !in old(db.comparison)
    ensures outcome2 == UniqueViolation
    ensures read == if u in old(db.comparison) then old(db.comparison)[u] else first
    ensures db.progress == old(db.progress)
  {
    outcome1 := db.InsertResult(u, first);
    outcome2 := db.InsertResult(u, second);
    read := db.GetResult(u);
  }
}
