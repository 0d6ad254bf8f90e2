/**
 * The state behind the main screen: which query of the cache the shown list
 * follows, chosen by a filter, and the one-slot "asteroid to navigate to".
 *
 * The shown list is a live query: whenever the cache changes, an observer
 * sees the rows the bound query selects now. The model keeps the query
 * itself in `asteroids` and gives what an observer sees through `Shown`.
 */
module ViewModel {
  import opened Wrappers
  import opened Float64
  import opened CivilCalendar
  import opened DateUtils
  import opened Domain
  import opened DatabaseEntities
  import opened DataTransferObjects
  import opened Room
  import opened Repository

  /** `AsteroidsApiFilter`: the three list choices of the menu. */
  datatype AsteroidsApiFilter = ViewWeekAsteroids | ViewTodayAsteroids | ViewSavedAsteroids

  /** What the `asteroids` list is bound to: every cached row, or those of a time span. */
  datatype AsteroidsQuery = AllAsteroids | TimeSpan(startDate: Date, endDate: Date)

  /** Whether a row dated `date` is selected by `query`. */
  predicate Selects(query: AsteroidsQuery, date: Date)
  {
    match query
    case AllAsteroids => true
    case TimeSpan(startDate, endDate) => WithinTimeSpan(date, startDate, endDate)
  }

  /** The query each filter binds the list to, for the day `today`. */
  function QueryFor(filter: AsteroidsApiFilter, today: Date): AsteroidsQuery
  {
    match filter
    case ViewTodayAsteroids => TimeSpan(today, today)
    case ViewWeekAsteroids => TimeSpan(today, Shift(today, 6))
    case ViewSavedAsteroids => AllAsteroids
  }

  /** The today filter selects exactly the rows dated today. */
  lemma TodayFilterSelects(today: Date, date: Date)
    ensures Selects(QueryFor(ViewTodayAsteroids, today), date) <==> date == today
  {
  }

  /** The week filter selects exactly the rows dated on one of the seven days from today on. */
  lemma WeekFilterSelects(today: Date, date: Date)
    ensures Selects(QueryFor(ViewWeekAsteroids, today), date) <==> exists k :: 0 <= k <= 6 && date == Shift(today, k)
  {
    WeekWindow(today, date);
  }

  /** The saved filter selects every row, and each filter selects only rows the saved filter selects. */
  lemma SavedFilterSelects(filter: AsteroidsApiFilter, today: Date, date: Date)
    ensures Selects(QueryFor(ViewSavedAsteroids, today), date)
    ensures Selects(QueryFor(filter, today), date) ==> Selects(QueryFor(ViewSavedAsteroids, today), date)
  {
  }

  class MainViewModel {
    const asteroidsRepository: AsteroidsRepository
    const database: AsteroidDao
    var asteroids: AsteroidsQuery
    var navigateToSelectedAsteroid: Option<Asteroid>

    ghost predicate Valid()
      reads this, asteroidsRepository, database
    {
      asteroidsRepository.database == database && database.Valid()
    }

    /**
     * A view model over `repository`, its list bound to the rows from
     * `today` to `nextDay`, nothing to navigate to.
     */
    constructor (repository: AsteroidsRepository, today: Date, nextDay: Date)
      requires repository.database.Valid()
      ensures Valid()
      ensures asteroidsRepository == repository && database == repository.database
      ensures asteroids == TimeSpan(today, nextDay) && navigateToSelectedAsteroid == None
    {
      asteroidsRepository := repository;
      database := repository.database;
      asteroids := TimeSpan(today, nextDay);
      navigateToSelectedAsteroid := None;
    }

    /** `filterAsteroids(filter)` on the day `today`. */
    method FilterAsteroids(filter: AsteroidsApiFilter, today: Date)
      requires Valid()
      modifies this`asteroids
      ensures Valid()
      ensures asteroids == QueryFor(filter, today)
      ensures navigateToSelectedAsteroid == old(navigateToSelectedAsteroid)
    {
      match filter {
        case ViewTodayAsteroids =>
          var date := today;
          FilterByDates(Some(date), Some(date));
        case ViewWeekAsteroids =>
          var startDate := today;
          var endDate := GetDate6DaysLater(startDate);
          FilterByDates(Some(startDate), Some(endDate));
        case ViewSavedAsteroids =>
          FilterByDates(None, None);
      }
    }

    /** The private `filterAsteroids(startDate, endDate)`: a time span when both ends are given, else every row. */
    method FilterByDates(startDate: Option<Date>, endDate: Option<Date>)
      requires Valid()
      modifies this`asteroids
      ensures Valid()
      ensures asteroids == if startDate.Some? && endDate.Some? then TimeSpan(startDate.value, endDate.value) else AllAsteroids
      ensures navigateToSelectedAsteroid == old(navigateToSelectedAsteroid)
    {
      if startDate.Some? && endDate.Some? {
        asteroids := TimeSpan(startDate.value, endDate.value);
      } else {
        asteroids := AllAsteroids;
      }
    }

    /**
     * What an observer of `asteroids` sees now: the cached rows the bound
     * query selects, each once, newest first, converted to asteroids.
     */
    method Shown() returns (list: seq<Asteroid>)
      requires Valid()
      ensures forall row :: row in AsDatabaseModel(list) <==>
                row in database.table.Values && Selects(asteroids, row.closeApproachDate)
      ensures DistinctIds(AsDatabaseModel(list))
      ensures NewestFirst(AsDatabaseModel(list))
    {
      var rows;
      match asteroids {
        case TimeSpan(startDate, endDate) =>
          rows := database.GetAsteroidsWithinTimeSpan(startDate, endDate);
        case AllAsteroids =>
          rows := database.GetAllAsteroids();
      }
      list := DatabaseAsteroidsAsDomainModel(rows);
      DatabaseOfDomain(rows);
    }

    /** `displayAsteroidDetails(asteroid)`: the slot now holds `asteroid`. */
    method DisplayAsteroidDetails(asteroid: Asteroid)
      requires Valid()
      modifies this`navigateToSelectedAsteroid
      ensures Valid()
      ensures navigateToSelectedAsteroid == Some(asteroid)
      ensures asteroids == old(asteroids)
    {
      navigateToSelectedAsteroid := Some(asteroid);
    }

    /** `navigateToAsteroidDetailsComplete()`: the slot is cleared. */
    method NavigateToAsteroidDetailsComplete()
      requires Valid()
      modifies this`navigateToSelectedAsteroid
      ensures Valid()
      ensures navigateToSelectedAsteroid == None
      ensures asteroids == old(asteroids)
    {
      navigateToSelectedAsteroid := None;
    }

    /**
     * The private `refreshAsteroids()`: the repository refresh, whose
     * exception is caught and logged. The list stays bound to the same query
     * and the slot keeps its value; only the cache may change.
     */
    method RefreshAsteroids(today: Date, feed: Feed, toDouble: DoubleParser)
      requires Valid()
      modifies database
      ensures Valid()
      ensures asteroids == old(asteroids) && navigateToSelectedAsteroid == old(navigateToSelectedAsteroid)
      ensures database.table == if Fetched(today, feed, toDouble).Success?
        then Upsert(old(database.table), AsDatabaseModel(Fetched(today, feed, toDouble).value))
        else old(database.table)
    {
      var outcome := asteroidsRepository.RefreshAsteroids(today, feed, toDouble);
    }
  }
}
