/**
 * `AsteroidsRepository.refreshAsteroids`: ask the feed for the week starting
 * today, parse the answer, convert it to rows and insert them into the cache.
 * The feed request is a parameter: the decoded answer of the server for a
 * start and an end date, or the exception the request threw.
 */
module Repository {
  import opened Wrappers
  import opened Float64
  import opened Json
  import opened CivilCalendar
  import opened DateUtils
  import opened Domain
  import opened DatabaseEntities
  import opened DataTransferObjects
  import opened NetworkUtils
  import opened Room

  /** `AsteroidService.getAsteroids(startDate, endDate)`, decoded. */
  type Feed = (string, string) -> Result<Json>

  /** The `yyyy-MM-dd` texts of the first and the last day asked for: today and six days later. */
  function RequestWindow(today: Date): (string, string)
  {
    (ToYearMonthsDays(today), ToYearMonthsDays(Shift(today, 6)))
  }

  /** What a refresh gets from the feed: the parsed asteroids, or the exception that ends it. */
  function Fetched(today: Date, feed: Feed, toDouble: DoubleParser): Result<seq<Asteroid>>
  {
    var window := RequestWindow(today);
    var response :- feed(window.0, window.1);
    var asteroidsFullData :- AsObject(response);
    AsteroidsOf(asteroidsFullData, AsteroidParserFor(toDouble))
  }

  /**
   * The request names seven consecutive days: both texts have the
   * `yyyy-MM-dd` layout and read back as today and six days later.
   */
  lemma RequestWindowDates(today: Date)
    requires 1 <= today.year && Shift(today, 6).year <= 9999
    ensures GetDateFromString(RequestWindow(today).0) == Success(today)
    ensures GetDateFromString(RequestWindow(today).1) == Success(Shift(today, 6))
    ensures DayNumber(Shift(today, 6)) == DayNumber(today) + 6
  {
    ShiftDayNumber(today, 6);
    DayNumberOrder(today, Shift(today, 6));
    ParseOfFormat(today);
    ParseOfFormat(Shift(today, 6));
  }

  /**
   * After a successful refresh every parsed asteroid is cached under its id;
   * when the payload lists an id more than once, the last one is kept.
   */
  lemma RefreshStoresParsed(table: Table, asteroids: seq<Asteroid>, i: nat)
    requires i < |asteroids|
    requires forall j :: i < j < |asteroids| ==> asteroids[j].id != asteroids[i].id
    ensures var cached := Upsert(table, AsDatabaseModel(asteroids));
      && asteroids[i].id in cached
      && DatabaseAsteroidsAsDomainModel([cached[asteroids[i].id]]) == [asteroids[i]]
  {
    var rows := AsDatabaseModel(asteroids);
    UpsertLastWins(table, rows, i);
    assert [rows[i]] == AsDatabaseModel([asteroids[i]]);
    DomainOfDatabase([asteroids[i]]);
  }

  /** A refresh deletes nothing: a cached row whose id is not in the payload stays as it was. */
  lemma RefreshKeepsAbsent(table: Table, asteroids: seq<Asteroid>, id: int)
    requires forall j :: 0 <= j < |asteroids| ==> asteroids[j].id != id
    ensures var cached := Upsert(table, AsDatabaseModel(asteroids));
      (id in cached <==> id in table) && (id in table ==> cached[id] == table[id])
  {
    var rows := AsDatabaseModel(asteroids);
    assert id !in Ids(rows);
    UpsertKeepsOthers(table, rows, id);
  }

  /** After a refresh the cached ids are the old ones and those of the payload. */
  lemma RefreshIds(table: Table, asteroids: seq<Asteroid>)
    ensures Upsert(table, AsDatabaseModel(asteroids)).Keys
         == table.Keys + (set j | 0 <= j < |asteroids| :: asteroids[j].id)
  {
    var rows := AsDatabaseModel(asteroids);
    UpsertKeys(table, rows);
    assert Ids(rows) == (set j | 0 <= j < |asteroids| :: asteroids[j].id);
  }

  class AsteroidsRepository {
    const database: AsteroidDao

    constructor (database: AsteroidDao)
      ensures this.database == database
    {
      this.database := database;
    }

    /**
     * `refreshAsteroids()` for the day `today`: on success the parsed
     * asteroids are inserted into the cache; a request, cast or parse failure
     * is passed on and the cache is left as it was.
     */
    method RefreshAsteroids(today: Date, feed: Feed, toDouble: DoubleParser) returns (r: Result<()>)
      requires database.Valid()
      modifies database
      ensures database.Valid()
      ensures r.Success? <==> Fetched(today, feed, toDouble).Success?
      ensures r.Failure? ==> r.error == Fetched(today, feed, toDouble).error
      ensures database.table == if r.Success?
        then Upsert(old(database.table), AsDatabaseModel(Fetched(today, feed, toDouble).value))
        else old(database.table)
    {
      var currentDate := today;
      var lastDay := GetDate6DaysLater(currentDate);
      var endDate := ToYearMonthsDays(lastDay);
      var startDate := ToYearMonthsDays(currentDate);
      var response := feed(startDate, endDate);
      if response.Failure? {
        return Failure(response.error);
      }
      var asteroidsFullData := AsObject(response.value);
      if asteroidsFullData.Failure? {
        return Failure(asteroidsFullData.error);
      }
      var asteroids := ParseAsteroids(asteroidsFullData.value, toDouble);
      if asteroids.Failure? {
        return Failure(asteroids.error);
      }
      database.InsertAll(AsDatabaseModel(asteroids.value));
      return Success(());
    }
  }
}
