/**
 * The rows of the local cache and their conversion into the records the
 * app shows. `id` is the primary key of both row types.
 */
module DatabaseEntities {
  import opened Float64
  import opened CivilCalendar
  import opened Domain

  /** A row of the `DatabaseAsteroid` table, keyed by `id`. */
  datatype DatabaseAsteroid = DatabaseAsteroid(
    id: int,
    codename: string,
    closeApproachDate: Date,
    absoluteMagnitude: Double,
    estimatedDiameter: Double,
    relativeVelocity: Double,
    distanceFromEarth: Double,
    isPotentiallyHazardous: bool)

  /** A row of the daily-picture table, keyed by `id`. */
  datatype DatabaseDailyPicture = DatabaseDailyPicture(
    id: string,
    date: Date,
    mediaType: string,
    title: string,
    url: string)

  /** `List<DatabaseAsteroid>.asDomainModel()`: every row, in order, as an asteroid with the same eight fields. */
  function DatabaseAsteroidsAsDomainModel(rows: seq<DatabaseAsteroid>): (asteroids: seq<Asteroid>)
    ensures |asteroids| == |rows|
    ensures forall i :: 0 <= i < |rows| ==>
      var a, row := asteroids[i], rows[i];
      && a.id == row.id
      && a.codename == row.codename
      && a.closeApproachDate == row.closeApproachDate
      && a.absoluteMagnitude == row.absoluteMagnitude
      && a.estimatedDiameter == row.estimatedDiameter
      && a.relativeVelocity == row.relativeVelocity
      && a.distanceFromEarth == row.distanceFromEarth
      && a.isPotentiallyHazardous == row.isPotentiallyHazardous
  {
    seq(|rows|, i requires 0 <= i < |rows| =>
      Asteroid(rows[i].id, rows[i].codename, rows[i].closeApproachDate, rows[i].absoluteMagnitude,
               rows[i].estimatedDiameter, rows[i].relativeVelocity, rows[i].distanceFromEarth,
               rows[i].isPotentiallyHazardous))
  }

  /** `List<DatabaseDailyPicture>.asDomainModel()`: every row, in order, as a picture with the same five fields. */
  function DatabaseDailyPicturesAsDomainModel(rows: seq<DatabaseDailyPicture>): (pictures: seq<DailyPicture>)
    ensures |pictures| == |rows|
    ensures forall i :: 0 <= i < |rows| ==>
      var p, row := pictures[i], rows[i];
      && p.id == row.id
      && p.date == row.date
      && p.mediaType == row.mediaType
      && p.title == row.title
      && p.url == row.url
  {
    seq(|rows|, i requires 0 <= i < |rows| =>
      DailyPicture(id := rows[i].id, date := rows[i].date, mediaType := rows[i].mediaType,
                   title := rows[i].title, url := rows[i].url))
  }

  /** Converting a list of rows converts each row on its own: the mapping commutes with concatenation. */
  lemma AsDomainModelAppend(rows: seq<DatabaseAsteroid>, more: seq<DatabaseAsteroid>)
    ensures DatabaseAsteroidsAsDomainModel(rows + more)
         == DatabaseAsteroidsAsDomainModel(rows) + DatabaseAsteroidsAsDomainModel(more)
  {
    var all := DatabaseAsteroidsAsDomainModel(rows + more);
    var parts := DatabaseAsteroidsAsDomainModel(rows) + DatabaseAsteroidsAsDomainModel(more);
    forall i | 0 <= i < |all| ensures all[i] == parts[i] {
      if i >= |rows| {
        assert (rows + more)[i] == more[i - |rows|];
      }
    }
  }

  /** The picture conversion loses nothing: two row lists that convert alike are the same rows. */
  lemma DailyPicturesKeepEverything(rows: seq<DatabaseDailyPicture>, others: seq<DatabaseDailyPicture>)
    requires DatabaseDailyPicturesAsDomainModel(rows) == DatabaseDailyPicturesAsDomainModel(others)
    ensures rows == others
  {
    var pictures := DatabaseDailyPicturesAsDomainModel(rows);
    forall i | 0 <= i < |rows| ensures rows[i] == others[i] {
      assert pictures[i] == DatabaseDailyPicturesAsDomainModel(others)[i];
    }
  }
}
