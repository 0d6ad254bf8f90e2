/** The records the app shows: asteroids and the picture of the day. */
module Domain {
  import opened Float64
  import opened CivilCalendar

  /** The range of a Kotlin `Long`. */
  const LONG_MIN: int := -0x8000_0000_0000_0000
  const LONG_MAX: int := 0x7fff_ffff_ffff_ffff

  datatype Asteroid = Asteroid(
    id: int,
    codename: string,
    closeApproachDate: Date,
    absoluteMagnitude: Double,
    estimatedDiameter: Double,
    relativeVelocity: Double,
    distanceFromEarth: Double,
    isPotentiallyHazardous: bool)

  datatype DailyPicture = DailyPicture(
    id: string,
    date: Date,
    mediaType: string,
    title: string,
    url: string)
}
