/**
 * The feed-response mapper: turns the decoded `neo/rest/v1/feed` payload
 * into a flat list of asteroids, and a decoded `planetary/apod` payload
 * into a daily picture.
 *
 * Every cast, lookup, index and number conversion below can throw, and the
 * handlers around them catch only `android.net.ParseException`, which none
 * of them throws: any failure aborts the whole parse.
 */
module NetworkObjects {
  import opened Wrappers
  import opened Decimal
  import opened Float64
  import opened Json
  import opened CivilCalendar
  import DateUtils
  import opened Domain

  // Member names in the feed and picture payloads.
  const ABSOLUTE_MAGNITUDE_H := "absolute_magnitude_h"
  const ASTRONOMICAL := "astronomical"
  const CLOSE_APPROACH_DATA := "close_approach_data"
  const CLOSE_APPROACH_DATE := "close_approach_date"
  const DATE := "date"
  const ESTIMATED_DIAMETER := "estimated_diameter"
  const ESTIMATED_DIAMETER_MAX := "estimated_diameter_max"
  const ID := "id"
  const IS_POTENTIALLY_HAZARDOUS_ASTEROID := "is_potentially_hazardous_asteroid"
  const KILOMETERS := "kilometers"
  const KILOMETERS_PER_SECOND := "kilometers_per_second"
  const MEDIA_TYPE := "media_type"
  const MISS_DISTANCE := "miss_distance"
  const NAME := "name"
  const RELATIVE_VELOCITY := "relative_velocity"
  const TITLE := "title"
  const URL := "url"

  /**
   * `String.toLong()`: an optional sign, then at least one decimal digit,
   * within the range of a `Long`.
   */
  function ToLong(s: string): (r: Result<int>)
    ensures r.Success? ==> LONG_MIN <= r.value <= LONG_MAX && |s| >= 1
    ensures r.Failure? ==> r.error == NumberFormat(s)
  {
    var negative := |s| > 0 && s[0] == '-';
    var digits := if |s| > 0 && (s[0] == '-' || s[0] == '+') then s[1..] else s;
    if |digits| == 0 || !AllDigits(digits) then Failure(NumberFormat(s))
    else
      var magnitude: int := Value(digits);
      var n := if negative then -magnitude else magnitude;
      if LONG_MIN <= n <= LONG_MAX then Success(n) else Failure(NumberFormat(s))
  }

  /** `String.toDouble()` through the given parser; a rejected text throws. */
  function ToDouble(toDouble: DoubleParser, s: string): (r: Result<Double>)
    ensures r.Success? <==> toDouble(s).Some?
    ensures r.Success? ==> toDouble(s) == Some(r.value)
  {
    match toDouble(s)
    case Some(d) => Success(d)
    case None => Failure(NumberFormat(s))
  }

  /**
   * The private `getDateFromString(date, id)`: the same `yyyy-MM-dd`
   * parser as `DateUtils.getDateFromString`; `id` only enters the message.
   */
  function GetDateFromString(date: string, id: int): (r: Result<Date>)
    ensures r == DateUtils.GetDateFromString(date)
  {
    DateUtils.GetDateFromString(date)
  }

  /** The first element of `close_approach_data`, or `null` when there is none. */
  function FirstApproach(asteroid: Members): Json
  {
    var approaches := Get(asteroid, CLOSE_APPROACH_DATA);
    if approaches.JArray? && |approaches.elems| > 0 then approaches.elems[0] else JNull
  }

  /** `(asteroid["id"] as String).toLong()` */
  function IdOf(asteroid: Members): (r: Result<int>)
    ensures r.Success? <==> Get(asteroid, ID).JString? && ToLong(Get(asteroid, ID).s).Success?
    ensures r.Success? ==> ToLong(Get(asteroid, ID).s) == Success(r.value)
  {
    var idText :- AsString(Get(asteroid, ID));
    ToLong(idText)
  }

  /** `(asteroid["close_approach_data"] as ArrayList<*>)[0] as Map<*, *>` */
  function CloseApproachData(asteroid: Members): (r: Result<Members>)
    ensures r.Success? <==> FirstApproach(asteroid).JObject?
    ensures r.Success? ==> FirstApproach(asteroid) == JObject(r.value)
    ensures Get(asteroid, CLOSE_APPROACH_DATA) == JArray([]) ==> r == Failure(IndexOutOfBounds)
  {
    var approaches :- AsArray(Get(asteroid, CLOSE_APPROACH_DATA));
    if |approaches| == 0 then Failure(IndexOutOfBounds)
    else AsObject(approaches[0])
  }

  /** `asteroid["estimated_diameter"]["kilometers"]["estimated_diameter_max"] as Double`, cast at each step */
  function EstimatedDiameterKm(asteroid: Members): (r: Result<Double>)
    ensures r.Success? <==> At(JObject(asteroid), [ESTIMATED_DIAMETER, KILOMETERS, ESTIMATED_DIAMETER_MAX]).JNumber?
    ensures r.Success? ==>
      At(JObject(asteroid), [ESTIMATED_DIAMETER, KILOMETERS, ESTIMATED_DIAMETER_MAX]) == JNumber(r.value)
  {
    var path := [ESTIMATED_DIAMETER, KILOMETERS, ESTIMATED_DIAMETER_MAX];
    assert path[1..] == [KILOMETERS, ESTIMATED_DIAMETER_MAX] && path[1..][1..] == [ESTIMATED_DIAMETER_MAX];
    assert At(JObject(asteroid), path) == At(Get(asteroid, ESTIMATED_DIAMETER), path[1..]);
    var diameters :- AsObject(Get(asteroid, ESTIMATED_DIAMETER));
    assert At(JObject(diameters), path[1..]) == At(Get(diameters, KILOMETERS), path[1..][1..]);
    var kilometers :- AsObject(Get(diameters, KILOMETERS));
    assert At(JObject(kilometers), path[1..][1..]) == Get(kilometers, ESTIMATED_DIAMETER_MAX);
    AsDouble(Get(kilometers, ESTIMATED_DIAMETER_MAX))
  }

  /** `(data[outer] as Map<*, *>)[inner] as String` converted by `String.toDouble()` */
  function NestedDouble(data: Members, outer: string, inner: string, toDouble: DoubleParser): (r: Result<Double>)
    ensures r.Success? <==>
      At(JObject(data), [outer, inner]).JString? && toDouble(At(JObject(data), [outer, inner]).s).Some?
    ensures r.Success? ==> toDouble(At(JObject(data), [outer, inner]).s) == Some(r.value)
  {
    var path := [outer, inner];
    assert path[1..] == [inner];
    assert At(JObject(data), path) == At(Get(data, outer), [inner]);
    var container :- AsObject(Get(data, outer));
    assert At(JObject(container), [inner]) == Get(container, inner);
    var text :- AsString(Get(container, inner));
    ToDouble(toDouble, text)
  }

  /**
   * `parseAsteroid`: one asteroid object of the feed. The id is read first,
   * so its failure is the parse's failure.
   */
  function ParseAsteroid(asteroid: Members, toDouble: DoubleParser): (r: Result<Asteroid>)
    ensures IdOf(asteroid).Failure? ==> r == Failure(IdOf(asteroid).error)
    ensures r.Success? ==> IdOf(asteroid) == Success(r.value.id) && Get(asteroid, NAME) == JString(r.value.codename)
  {
    var id :- IdOf(asteroid);
    var codename :- AsString(Get(asteroid, NAME));
    var closeApproachData :- CloseApproachData(asteroid);
    var closeApproachDate :- AsString(Get(closeApproachData, CLOSE_APPROACH_DATE));
    var absoluteMagnitude :- AsDouble(Get(asteroid, ABSOLUTE_MAGNITUDE_H));
    var estimatedDiameterKm :- EstimatedDiameterKm(asteroid);
    var relativeVelocity :- NestedDouble(closeApproachData, RELATIVE_VELOCITY, KILOMETERS_PER_SECOND, toDouble);
    var distanceFromEarth :- NestedDouble(closeApproachData, MISS_DISTANCE, ASTRONOMICAL, toDouble);
    var isPotentiallyHazardous :-
      AsBoolean(Get(asteroid, IS_POTENTIALLY_HAZARDOUS_ASTEROID));
    var date :- GetDateFromString(closeApproachDate, id);
    Success(Asteroid(id, codename, date, absoluteMagnitude, estimatedDiameterKm,
                     relativeVelocity, distanceFromEarth, isPotentiallyHazardous))
  }

  /**
   * The members `parseAsteroid` reads are all there with the types it casts
   * them to, and `toLong()`, `toDouble()` and the date parser accept the
   * texts.
   */
  predicate WellFormedAsteroid(asteroid: Members, toDouble: DoubleParser)
  {
    var first := FirstApproach(asteroid);
    && Get(asteroid, ID).JString? && ToLong(Get(asteroid, ID).s).Success?
    && Get(asteroid, NAME).JString?
    && first.JObject?
    && Get(first.members, CLOSE_APPROACH_DATE).JString?
    && Get(asteroid, ABSOLUTE_MAGNITUDE_H).JNumber?
    && At(JObject(asteroid), [ESTIMATED_DIAMETER, KILOMETERS, ESTIMATED_DIAMETER_MAX]).JNumber?
    && At(first, [RELATIVE_VELOCITY, KILOMETERS_PER_SECOND]).JString?
    && toDouble(At(first, [RELATIVE_VELOCITY, KILOMETERS_PER_SECOND]).s).Some?
    && At(first, [MISS_DISTANCE, ASTRONOMICAL]).JString?
    && toDouble(At(first, [MISS_DISTANCE, ASTRONOMICAL]).s).Some?
    && Get(asteroid, IS_POTENTIALLY_HAZARDOUS_ASTEROID).JBool?
    && DateUtils.GetDateFromString(Get(first.members, CLOSE_APPROACH_DATE).s).Success?
  }

  /** An asteroid object parses exactly when it is well formed. */
  lemma ParseAsteroidSucceeds(asteroid: Members, toDouble: DoubleParser)
    ensures ParseAsteroid(asteroid, toDouble).Success? <==> WellFormedAsteroid(asteroid, toDouble)
  {
  }

  /** A well-formed asteroid object parses to the asteroid its members spell out. */
  lemma ParseAsteroidValue(asteroid: Members, toDouble: DoubleParser)
    requires WellFormedAsteroid(asteroid, toDouble)
    ensures var first := FirstApproach(asteroid);
      ParseAsteroid(asteroid, toDouble) == Success(Asteroid(
        ToLong(Get(asteroid, ID).s).value,
        Get(asteroid, NAME).s,
        DateUtils.GetDateFromString(Get(first.members, CLOSE_APPROACH_DATE).s).value,
        Get(asteroid, ABSOLUTE_MAGNITUDE_H).n,
        At(JObject(asteroid), [ESTIMATED_DIAMETER, KILOMETERS, ESTIMATED_DIAMETER_MAX]).n,
        toDouble(At(first, [RELATIVE_VELOCITY, KILOMETERS_PER_SECOND]).s).value,
        toDouble(At(first, [MISS_DISTANCE, ASTRONOMICAL]).s).value,
        Get(asteroid, IS_POTENTIALLY_HAZARDOUS_ASTEROID).b))
  {
    ParseAsteroidSucceeds(asteroid, toDouble);
    ParsedOwnFields(asteroid, toDouble);
    ParsedApproachFields(asteroid, toDouble);
  }

  /**
   * What a parsed asteroid holds of the object itself: the decimal value of
   * `id`, `name`, the magnitude, the largest kilometre diameter and the
   * hazard flag.
   */
  lemma ParsedOwnFields(asteroid: Members, toDouble: DoubleParser)
    requires ParseAsteroid(asteroid, toDouble).Success?
    ensures var a := ParseAsteroid(asteroid, toDouble).value;
      && Get(asteroid, ID).JString?
      && ToLong(Get(asteroid, ID).s) == Success(a.id)
      && Get(asteroid, NAME) == JString(a.codename)
      && Get(asteroid, ABSOLUTE_MAGNITUDE_H) == JNumber(a.absoluteMagnitude)
      && At(JObject(asteroid), [ESTIMATED_DIAMETER, KILOMETERS, ESTIMATED_DIAMETER_MAX])
         == JNumber(a.estimatedDiameter)
      && Get(asteroid, IS_POTENTIALLY_HAZARDOUS_ASTEROID) == JBool(a.isPotentiallyHazardous)
  {
  }

  /** What a parsed asteroid holds of its first close approach: the date, the speed and the distance. */
  lemma ParsedApproachFields(asteroid: Members, toDouble: DoubleParser)
    requires ParseAsteroid(asteroid, toDouble).Success?
    ensures var a := ParseAsteroid(asteroid, toDouble).value;
      var first := FirstApproach(asteroid);
      && first.JObject?
      && Get(first.members, CLOSE_APPROACH_DATE).JString?
      && DateUtils.GetDateFromString(Get(first.members, CLOSE_APPROACH_DATE).s) == Success(a.closeApproachDate)
      && At(first, [RELATIVE_VELOCITY, KILOMETERS_PER_SECOND]).JString?
      && toDouble(At(first, [RELATIVE_VELOCITY, KILOMETERS_PER_SECOND]).s) == Some(a.relativeVelocity)
      && At(first, [MISS_DISTANCE, ASTRONOMICAL]).JString?
      && toDouble(At(first, [MISS_DISTANCE, ASTRONOMICAL]).s) == Some(a.distanceFromEarth)
  {
  }

  /** An id that is not a decimal `Long` and an empty `close_approach_data` both throw. */
  lemma ParseAsteroidFailures(asteroid: Members, toDouble: DoubleParser)
    ensures !Get(asteroid, ID).JString? ==> ParseAsteroid(asteroid, toDouble).Failure?
    ensures Get(asteroid, ID).JString? && ToLong(Get(asteroid, ID).s).Failure? ==>
              ParseAsteroid(asteroid, toDouble) == Failure(NumberFormat(Get(asteroid, ID).s))
    ensures Get(asteroid, CLOSE_APPROACH_DATA) == JArray([]) ==> ParseAsteroid(asteroid, toDouble).Failure?
  {
  }

  // ---------------------------------------------------------------------------
  // `String.toLong()` reads back what `Long.toString()` writes

  /** Unsigned digits within range convert to their value. */
  lemma ToLongUnsigned(s: string)
    requires |s| >= 1 && AllDigits(s) && Value(s) <= LONG_MAX
    ensures ToLong(s) == Success(Value(s))
  {
    assert IsDigit(s[0]);
  }

  /** `-` and digits convert to the negated value when it is within range. */
  lemma ToLongNegative(s: string)
    requires |s| >= 2 && s[0] == '-' && AllDigits(s[1..]) && Value(s[1..]) <= -LONG_MIN
    ensures ToLong(s) == Success(-(Value(s[1..]) as int))
  {
  }

  /** The decimal text of a non-negative `Long` converts back to it. */
  lemma ToLongOfDecimal(n: nat)
    requires n <= LONG_MAX
    ensures ToLong(DecimalText(n)) == Success(n)
  {
    DecimalValue(n);
    ToLongUnsigned(DecimalText(n));
  }

  /** `-` followed by the decimal text of a magnitude up to 2^63 converts to the negative `Long`. */
  lemma ToLongOfNegative(n: nat)
    requires 1 <= n <= -LONG_MIN
    ensures ToLong("-" + DecimalText(n)) == Success(-(n as int))
  {
    var s := "-" + DecimalText(n);
    assert s[1..] == DecimalText(n);
    DecimalValue(n);
    ToLongNegative(s);
  }

  /** The id of the sample feed record converts to its number. */
  lemma SampleIdConverts()
    ensures ToLong("2465633") == Success(2465633)
  {
    var s := "2465633";
    assert s[..6] == "246563" && "246563"[..5] == "24656" && "24656"[..4] == "2465";
    assert "2465"[..3] == "246" && "246"[..2] == "24" && "24"[..1] == "2" && "2"[..0] == "";
    assert Value(s) == 2465633;
    ToLongUnsigned(s);
  }

  /** Text with a character other than a leading sign and digits never converts. */
  lemma ToLongRejectsNonDigit(s: string, i: nat)
    requires 0 < i < |s| && !IsDigit(s[i])
    ensures ToLong(s) == Failure(NumberFormat(s))
  {
    var digits := if s[0] == '-' || s[0] == '+' then s[1..] else s;
    assert !IsDigit(digits[i - (|s| - |digits|)]);
  }

  // ---------------------------------------------------------------------------
  // `parseDailyPicture`

  /**
   * `parseDailyPicture`: the `date` text is both the picture's id and, parsed
   * as `yyyy-MM-dd`, its date; `title`, `media_type` and `url` are copied.
   */
  function ParseDailyPicture(rawPictureData: Members): (r: Result<DailyPicture>)
    ensures !Get(rawPictureData, DATE).JString? ==> r == Failure(AsString(Get(rawPictureData, DATE)).error)
    ensures r.Success? ==>
      Get(rawPictureData, DATE) == JString(r.value.id) && DateUtils.GetDateFromString(r.value.id) == Success(r.value.date)
  {
    var rawDate :- AsString(Get(rawPictureData, DATE));
    var date :- DateUtils.GetDateFromString(rawDate);
    var title :- AsString(Get(rawPictureData, TITLE));
    var mediaType :- AsString(Get(rawPictureData, MEDIA_TYPE));
    var url :- AsString(Get(rawPictureData, URL));
    Success(DailyPicture(rawDate, date, mediaType, title, url))
  }

  /** A picture parses exactly when its four fields are strings and its date is a valid `yyyy-MM-dd`. */
  lemma DailyPictureParses(rawPictureData: Members)
    ensures ParseDailyPicture(rawPictureData).Success? <==>
      && Get(rawPictureData, DATE).JString?
      && DateUtils.GetDateFromString(Get(rawPictureData, DATE).s).Success?
      && Get(rawPictureData, TITLE).JString?
      && Get(rawPictureData, MEDIA_TYPE).JString?
      && Get(rawPictureData, URL).JString?
  {
  }

  /** A parsed picture holds the fields of the payload; its id formats back from its date. */
  lemma DailyPictureFields(rawPictureData: Members)
    requires ParseDailyPicture(rawPictureData).Success?
    ensures var p := ParseDailyPicture(rawPictureData).value;
      && Get(rawPictureData, DATE) == JString(p.id)
      && DateUtils.GetDateFromString(p.id) == Success(p.date)
      && Get(rawPictureData, TITLE) == JString(p.title)
      && Get(rawPictureData, MEDIA_TYPE) == JString(p.mediaType)
      && Get(rawPictureData, URL) == JString(p.url)
      && (p.date.year >= 1 ==> DateUtils.ToYearMonthsDays(p.date) == p.id)
  {
    var p := ParseDailyPicture(rawPictureData).value;
    if p.date.year >= 1 {
      DateUtils.FormatOfParse(p.id, p.date);
    }
  }
}
