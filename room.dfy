/**
 * The local cache: the `DatabaseAsteroid` table keyed by asteroid id, the
 * insert-or-replace `insertAll` and the two queries of `AsteroidDao`, both
 * ordered by close-approach date, newest first.
 */
module Room {
  import opened CivilCalendar
  import opened DatabaseEntities

  /** The persisted table: primary key to row. */
  type Table = map<int, DatabaseAsteroid>

  /** The primary key holds: every row is stored under its own id. */
  ghost predicate KeyedById(table: Table)
  {
    forall id :: id in table ==> table[id].id == id
  }

  /** The ids of a batch of rows. */
  ghost function Ids(batch: seq<DatabaseAsteroid>): set<int>
  {
    set i | 0 <= i < |batch| :: batch[i].id
  }

  /** The table after inserting `batch` row by row, each row replacing any row with its id. */
  function Upsert(table: Table, batch: seq<DatabaseAsteroid>): (t: Table)
    ensures table.Keys <= t.Keys
    ensures forall i :: 0 <= i < |batch| ==> batch[i].id in t
  {
    if batch == [] then table
    else
      var last := batch[|batch| - 1];
      Upsert(table, batch[..|batch| - 1])[last.id := last]
  }

  // ---------------------------------------------------------------------------
  // What insert-or-replace does to the table

  lemma IdsOfInit(batch: seq<DatabaseAsteroid>)
    requires batch != []
    ensures Ids(batch) == Ids(batch[..|batch| - 1]) + {batch[|batch| - 1].id}
  {
    var init := batch[..|batch| - 1];
    forall id | id in Ids(batch) ensures id in Ids(init) + {batch[|batch| - 1].id} {
      var i :| 0 <= i < |batch| && batch[i].id == id;
      if i < |init| { assert init[i] == batch[i]; }
    }
    forall id | id in Ids(init) ensures id in Ids(batch) {
      var i :| 0 <= i < |init| && init[i].id == id;
      assert batch[i] == init[i];
    }
  }

  /** The ids after an insert are the old ids and the batch's ids: nothing is deleted. */
  lemma {:induction false} UpsertKeys(table: Table, batch: seq<DatabaseAsteroid>)
    ensures Upsert(table, batch).Keys == table.Keys + Ids(batch)
  {
    if batch != [] {
      UpsertKeys(table, batch[..|batch| - 1]);
      IdsOfInit(batch);
    }
  }

  /** A row with no later row of the same id in the batch is what the table holds under that id. */
  lemma {:induction false} UpsertLastWins(table: Table, batch: seq<DatabaseAsteroid>, i: nat)
    requires i < |batch|
    requires forall j :: i < j < |batch| ==> batch[j].id != batch[i].id
    ensures batch[i].id in Upsert(table, batch) && Upsert(table, batch)[batch[i].id] == batch[i]
  {
    if i < |batch| - 1 {
      var init := batch[..|batch| - 1];
      forall j | i < j < |init| ensures init[j].id != init[i].id {
        assert init[j] == batch[j];
      }
      UpsertLastWins(table, init, i);
    }
  }

  /** A row whose id is not in the batch is kept as it was, and no row appears under such an id. */
  lemma {:induction false} UpsertKeepsOthers(table: Table, batch: seq<DatabaseAsteroid>, id: int)
    requires id !in Ids(batch)
    ensures id in Upsert(table, batch) <==> id in table
    ensures id in table ==> Upsert(table, batch)[id] == table[id]
  {
    if batch != [] {
      IdsOfInit(batch);
      UpsertKeepsOthers(table, batch[..|batch| - 1], id);
    }
  }

  /** Under an id of the batch the table holds a row of the batch, whatever it held before. */
  lemma {:induction false} UpsertOverrides(table: Table, other: Table, batch: seq<DatabaseAsteroid>, id: int)
    requires id in Ids(batch)
    ensures id in Upsert(table, batch) && id in Upsert(other, batch)
    ensures Upsert(table, batch)[id] == Upsert(other, batch)[id]
  {
    var last := batch[|batch| - 1];
    IdsOfInit(batch);
    if id != last.id {
      UpsertOverrides(table, other, batch[..|batch| - 1], id);
    }
  }

  /** Inserts keep the primary key: every row stays under its own id. */
  lemma {:induction false} UpsertKeyed(table: Table, batch: seq<DatabaseAsteroid>)
    requires KeyedById(table)
    ensures KeyedById(Upsert(table, batch))
  {
    if batch != [] {
      UpsertKeyed(table, batch[..|batch| - 1]);
    }
  }

  /** Inserting the same batch twice gives the table that inserting it once gives. */
  lemma UpsertIdempotent(table: Table, batch: seq<DatabaseAsteroid>)
    ensures Upsert(Upsert(table, batch), batch) == Upsert(table, batch)
  {
    var once := Upsert(table, batch);
    var twice := Upsert(once, batch);
    UpsertKeys(table, batch);
    UpsertKeys(once, batch);
    forall id | id in twice ensures twice[id] == once[id] {
      if id in Ids(batch) {
        UpsertOverrides(once, table, batch, id);
      } else {
        UpsertKeepsOthers(once, batch, id);
      }
    }
  }

  // ---------------------------------------------------------------------------
  // Newest first

  /** `id` names a row of `ids` whose date is not before that of any other row of `ids`. */
  predicate IsNewestIn(id: int, ids: set<int>, table: Table)
    requires ids <= table.Keys
  {
    id in ids && forall other :: other in ids ==> AtOrBefore(table[other].closeApproachDate, table[id].closeApproachDate)
  }

  lemma HasElement(ids: set<int>)
    requires ids != {}
    ensures exists id :: id in ids
  {
    if forall id :: id !in ids {
      assert false;
    }
  }

  lemma {:induction false} NewestExists(ids: set<int>, table: Table)
    requires ids <= table.Keys && ids != {}
    ensures exists id :: IsNewestIn(id, ids, table)
    decreases |ids|
  {
    HasElement(ids);
    var first :| first in ids;
    var rest := ids - {first};
    if ids == {first} {
      assert IsNewestIn(first, ids, table);
    } else {
      NewestExists(rest, table);
      var best :| IsNewestIn(best, rest, table);
      if AtOrBefore(table[first].closeApproachDate, table[best].closeApproachDate) {
        assert IsNewestIn(best, ids, table);
      } else {
        assert IsNewestIn(first, ids, table);
      }
    }
  }

  /** Rows ordered by close-approach date, newest first (`ORDER BY closeApproachDate DESC`). */
  ghost predicate NewestFirst(rows: seq<DatabaseAsteroid>)
  {
    forall i, j :: 0 <= i < j < |rows| ==> AtOrBefore(rows[j].closeApproachDate, rows[i].closeApproachDate)
  }

  /** No two rows with the same id. */
  ghost predicate DistinctIds(rows: seq<DatabaseAsteroid>)
  {
    forall i, j :: 0 <= i < j < |rows| ==> rows[i].id != rows[j].id
  }

  /** `start <= date <= end`, the `WHERE` clause of the time-span query. */
  predicate WithinTimeSpan(date: Date, startDate: Date, endDate: Date)
  {
    AtOrBefore(startDate, date) && AtOrBefore(date, endDate)
  }

  /** The primary key ties each stored row to its id. */
  lemma StoredRow(table: Table, row: DatabaseAsteroid)
    requires KeyedById(table)
    ensures row in table.Values <==> row.id in table && table[row.id] == row
  {
    if row in table.Values && forall id :: id in table ==> table[id] != row {
      assert false;
    }
  }

  class AsteroidDao {
    var table: Table

    ghost predicate Valid()
      reads this
    {
      KeyedById(table)
    }

    /** A database created empty. */
    constructor ()
      ensures Valid() && table == map[]
    {
      table := map[];
    }

    /** `insertAll(vararg asteroids)` with `OnConflictStrategy.REPLACE`. */
    method InsertAll(asteroids: seq<DatabaseAsteroid>)
      requires Valid()
      modifies this
      ensures Valid()
      ensures table == Upsert(old(table), asteroids)
    {
      for i := 0 to |asteroids|
        invariant table == Upsert(old(table), asteroids[..i])
      {
        var prefix := asteroids[..i + 1];
        assert prefix[..|prefix| - 1] == asteroids[..i] && prefix[|prefix| - 1] == asteroids[i];
        table := table[asteroids[i].id := asteroids[i]];
      }
      assert asteroids[..|asteroids|] == asteroids;
      UpsertKeyed(old(table), asteroids);
    }

    /** The rows whose ids are `ids`, each once, newest first. */
    method RowsNewestFirst(ids: set<int>) returns (rows: seq<DatabaseAsteroid>)
      requires Valid() && ids <= table.Keys
      ensures forall row :: row in rows <==> row in table.Values && row.id in ids
      ensures DistinctIds(rows)
      ensures NewestFirst(rows)
    {
      var remaining := ids;
      rows := [];
      while remaining != {}
        invariant remaining <= ids
        invariant forall k :: 0 <= k < |rows| ==> rows[k].id in ids - remaining && table[rows[k].id] == rows[k]
        invariant forall id :: id in ids - remaining ==> table[id] in rows
        invariant DistinctIds(rows)
        invariant NewestFirst(rows)
        invariant forall k, id :: 0 <= k < |rows| && id in remaining ==>
                    AtOrBefore(table[id].closeApproachDate, rows[k].closeApproachDate)
        decreases remaining
      {
        NewestExists(remaining, table);
        var id :| IsNewestIn(id, remaining, table);
        rows := rows + [table[id]];
        remaining := remaining - {id};
      }
      forall row ensures row in rows <==> row in table.Values && row.id in ids {
        StoredRow(table, row);
      }
    }

    /** `getAllAsteroids()`: every row, each once, newest first. */
    method GetAllAsteroids() returns (rows: seq<DatabaseAsteroid>)
      requires Valid()
      ensures forall row :: row in rows <==> row in table.Values
      ensures DistinctIds(rows)
      ensures NewestFirst(rows)
    {
      rows := RowsNewestFirst(table.Keys);
      forall row | row in table.Values ensures row.id in table.Keys {
        StoredRow(table, row);
      }
    }

    /**
     * `getAsteroidsWithinTimeSpan(startDate, endDate)`: the rows dated from
     * `startDate` to `endDate` inclusive, each once, newest first.
     */
    method GetAsteroidsWithinTimeSpan(startDate: Date, endDate: Date) returns (rows: seq<DatabaseAsteroid>)
      requires Valid()
      ensures forall row :: row in rows <==> row in table.Values && WithinTimeSpan(row.closeApproachDate, startDate, endDate)
      ensures DistinctIds(rows)
      ensures NewestFirst(rows)
      ensures !AtOrBefore(startDate, endDate) ==> rows == []
    {
      var ids := set id | id in table && WithinTimeSpan(table[id].closeApproachDate, startDate, endDate);
      rows := RowsNewestFirst(ids);
      forall row | row in table.Values ensures row.id in ids <==> WithinTimeSpan(row.closeApproachDate, startDate, endDate) {
        StoredRow(table, row);
      }
      if rows != [] {
        assert rows[0] in rows;
      }
    }
  }
}
