/** Conversion of parsed asteroids into the rows that the cache stores. */
module DataTransferObjects {
  import opened Domain
  import opened DatabaseEntities

  /**
   * `List<Asteroid>.asDatabaseModel()`: every asteroid, in order, as a row
   * with the same eight fields. Duplicate ids stay; only the insert merges them.
   */
  function AsDatabaseModel(asteroids: seq<Asteroid>): (rows: seq<DatabaseAsteroid>)
    ensures |rows| == |asteroids|
    ensures forall i :: 0 <= i < |asteroids| ==>
      var row, a := rows[i], asteroids[i];
      && row.id == a.id
      && row.codename == a.codename
      && row.closeApproachDate == a.closeApproachDate
      && row.absoluteMagnitude == a.absoluteMagnitude
      && row.estimatedDiameter == a.estimatedDiameter
      && row.relativeVelocity == a.relativeVelocity
      && row.distanceFromEarth == a.distanceFromEarth
      && row.isPotentiallyHazardous == a.isPotentiallyHazardous
  {
    seq(|asteroids|, i requires 0 <= i < |asteroids| =>
      DatabaseAsteroid(
        id := asteroids[i].id,
        codename := asteroids[i].codename,
        closeApproachDate := asteroids[i].closeApproachDate,
        absoluteMagnitude := asteroids[i].absoluteMagnitude,
        estimatedDiameter := asteroids[i].estimatedDiameter,
        relativeVelocity := asteroids[i].relativeVelocity,
        distanceFromEarth := asteroids[i].distanceFromEarth,
        isPotentiallyHazardous := asteroids[i].isPotentiallyHazardous))
  }

  /** Storing asteroids and reading the rows back gives the same asteroids. */
  lemma DomainOfDatabase(asteroids: seq<Asteroid>)
    ensures DatabaseAsteroidsAsDomainModel(AsDatabaseModel(asteroids)) == asteroids
  {
    var back := DatabaseAsteroidsAsDomainModel(AsDatabaseModel(asteroids));
    assert forall i :: 0 <= i < |asteroids| ==> back[i] == asteroids[i];
  }

  /** Reading rows and storing the asteroids gives the same rows. */
  lemma DatabaseOfDomain(rows: seq<DatabaseAsteroid>)
    ensures AsDatabaseModel(DatabaseAsteroidsAsDomainModel(rows)) == rows
  {
    var back := AsDatabaseModel(DatabaseAsteroidsAsDomainModel(rows));
    assert forall i :: 0 <= i < |rows| ==> back[i] == rows[i];
  }

  /** The ids of the rows are the ids of the asteroids, position by position, repeats included. */
  lemma KeepsDuplicateIds(asteroids: seq<Asteroid>, i: nat, j: nat)
    requires i < j < |asteroids| && asteroids[i].id == asteroids[j].id
    ensures var rows := AsDatabaseModel(asteroids);
      rows[i].id == rows[j].id && |rows| == |asteroids|
  {
  }
}
