/**
 * `parseAsteroids`: the feed's `near_earth_objects` map, day by day and
 * asteroid by asteroid, flattened into one list in the order of the payload.
 */
module NetworkUtils {
  import opened Wrappers
  import opened Float64
  import opened Json
  import opened Domain
  import opened NetworkObjects

  /** The member of the feed payload that holds the days. */
  const NEAR_EARTH_OBJECTS := "near_earth_objects"

  /** `getNearEarthObjects`: `asteroidsFullData["near_earth_objects"] as Map<*, *>` */
  function GetNearEarthObjects(asteroidsFullData: Members): (r: Result<Members>)
    ensures r.Success? <==> Get(asteroidsFullData, NEAR_EARTH_OBJECTS).JObject?
    ensures r.Success? ==> Get(asteroidsFullData, NEAR_EARTH_OBJECTS) == JObject(r.value)
  {
    AsObject(Get(asteroidsFullData, NEAR_EARTH_OBJECTS))
  }

  // ---------------------------------------------------------------------------
  // What `parseAsteroids` computes, stated as functions over the input and
  // the parser applied to each asteroid object

  type AsteroidParser = Members -> Result<Asteroid>

  /** `parseAsteroid` with the given `String.toDouble`. */
  function AsteroidParserFor(toDouble: DoubleParser): AsteroidParser
  {
    asteroid => ParseAsteroid(asteroid, toDouble)
  }

  /** The asteroids of one day's array: objects parsed in order, other entries skipped. */
  function ParseEntries(entries: seq<Json>, parse: AsteroidParser): Result<seq<Asteroid>>
  {
    if entries == [] then Success([])
    else
      var done :- ParseEntries(entries[..|entries| - 1], parse);
      var last := entries[|entries| - 1];
      if last.JObject? then
        var asteroid :- parse(last.members);
        Success(done + [asteroid])
      else Success(done)
  }

  /** The asteroids of all days, in day order; a day whose value is not an array throws. */
  function ParseDays(days: Members, parse: AsteroidParser): Result<seq<Asteroid>>
  {
    if days == [] then Success([])
    else
      var done :- ParseDays(days[..|days| - 1], parse);
      var entries :- AsArray(days[|days| - 1].1);
      var parsed :- ParseEntries(entries, parse);
      Success(done + parsed)
  }

  /**
   * The result of `parseAsteroids`: no `near_earth_objects` object throws, an
   * empty one gives no asteroids, and a non-empty one that yields no asteroid
   * throws at `domainAsteroids.last()`.
   */
  function AsteroidsOf(asteroidsFullData: Members, parse: AsteroidParser): Result<seq<Asteroid>>
  {
    var nearEarthObjects :- GetNearEarthObjects(asteroidsFullData);
    if |nearEarthObjects| == 0 then Success([])
    else
      var asteroids :- ParseDays(nearEarthObjects, parse);
      if asteroids == [] then Failure(NoSuchElement) else Success(asteroids)
  }

  // ---------------------------------------------------------------------------
  // `parseAsteroids` as the source runs it: two nested loops appending to a list

  method ParseAsteroids(asteroidsFullData: Members, toDouble: DoubleParser) returns (r: Result<seq<Asteroid>>)
    ensures r == AsteroidsOf(asteroidsFullData, AsteroidParserFor(toDouble))
  {
    var parse := AsteroidParserFor(toDouble);
    var found := GetNearEarthObjects(asteroidsFullData);
    if found.Failure? {
      return Failure(found.error);
    }
    var nearEarthObjects := found.value;
    if |nearEarthObjects| == 0 {
      return Success([]);
    }

    var domainAsteroids: seq<Asteroid> := [];
    for i := 0 to |nearEarthObjects|
      invariant ParseDays(nearEarthObjects[..i], parse) == Success(domainAsteroids)
    {
      var day := AsArray(nearEarthObjects[i].1);
      if day.Failure? {
        DayNotArray(nearEarthObjects, i, parse);
        return Failure(day.error);
      }
      var asteroidsOfDayList := day.value;
      ghost var before := domainAsteroids;
      ghost var ofDay: seq<Asteroid> := [];
      assert asteroidsOfDayList[..0] == [];
      for j := 0 to |asteroidsOfDayList|
        invariant domainAsteroids == before + ofDay
        invariant ParseEntries(asteroidsOfDayList[..j], parse) == Success(ofDay)
      {
        var asteroid := asteroidsOfDayList[j];
        if asteroid.JObject? {
          var parsed := ParseAsteroid(asteroid.members, toDouble);
          assert parsed == parse(asteroid.members);
          if parsed.Failure? {
            EntryFails(asteroidsOfDayList, j, parse);
            DayEntriesFail(nearEarthObjects, i, parse);
            return Failure(parsed.error);
          }
          EntryStep(asteroidsOfDayList, j, parse);
          domainAsteroids := domainAsteroids + [parsed.value];
          ofDay := ofDay + [parsed.value];
        } else {
          EntryStep(asteroidsOfDayList, j, parse);
        }
      }
      assert asteroidsOfDayList[..|asteroidsOfDayList|] == asteroidsOfDayList;
      DayStep(nearEarthObjects, i, parse);
    }
    assert nearEarthObjects[..|nearEarthObjects|] == nearEarthObjects;

    if |domainAsteroids| == 0 {
      // the closing log line reads `domainAsteroids.last()`
      return Failure(NoSuchElement);
    }
    return Success(domainAsteroids);
  }

  lemma {:induction false} EntriesFailureSticks(entries: seq<Json>, k: nat, parse: AsteroidParser)
    requires k <= |entries|
    requires ParseEntries(entries[..k], parse).Failure?
    ensures ParseEntries(entries, parse) == ParseEntries(entries[..k], parse)
    decreases |entries| - k
  {
    if k < |entries| {
      var init := entries[..|entries| - 1];
      assert init[..k] == entries[..k];
      EntriesFailureSticks(init, k, parse);
    } else {
      assert entries[..k] == entries;
    }
  }

  lemma {:induction false} DaysFailureSticks(days: Members, k: nat, parse: AsteroidParser)
    requires k <= |days|
    requires ParseDays(days[..k], parse).Failure?
    ensures ParseDays(days, parse) == ParseDays(days[..k], parse)
    decreases |days| - k
  {
    if k < |days| {
      var init := days[..|days| - 1];
      assert init[..k] == days[..k];
      DaysFailureSticks(init, k, parse);
    } else {
      assert days[..k] == days;
    }
  }

  lemma EntryStep(entries: seq<Json>, j: nat, parse: AsteroidParser)
    requires j < |entries| && ParseEntries(entries[..j], parse).Success?
    requires entries[j].JObject? ==> parse(entries[j].members).Success?
    ensures entries[j].JObject? ==>
              ParseEntries(entries[..j + 1], parse)
              == Success(ParseEntries(entries[..j], parse).value + [parse(entries[j].members).value])
    ensures !entries[j].JObject? ==> ParseEntries(entries[..j + 1], parse) == ParseEntries(entries[..j], parse)
  {
    var prefix := entries[..j + 1];
    assert prefix[..|prefix| - 1] == entries[..j] && prefix[|prefix| - 1] == entries[j];
  }

  lemma EntryFails(entries: seq<Json>, j: nat, parse: AsteroidParser)
    requires j < |entries| && ParseEntries(entries[..j], parse).Success?
    requires entries[j].JObject? && parse(entries[j].members).Failure?
    ensures ParseEntries(entries, parse) == Failure(parse(entries[j].members).error)
  {
    assert entries[..j + 1][..j] == entries[..j];
    EntriesFailureSticks(entries, j + 1, parse);
  }

  lemma DayStep(days: Members, i: nat, parse: AsteroidParser)
    requires i < |days| && ParseDays(days[..i], parse).Success?
    requires days[i].1.JArray? && ParseEntries(days[i].1.elems, parse).Success?
    ensures ParseDays(days[..i + 1], parse)
      == Success(ParseDays(days[..i], parse).value + ParseEntries(days[i].1.elems, parse).value)
  {
    var prefix := days[..i + 1];
    assert prefix[..|prefix| - 1] == days[..i] && prefix[|prefix| - 1] == days[i];
  }

  /** A day whose value is not an array ends the prefix up to it with the cast's exception. */
  lemma DayNotArrayStep(days: Members, i: nat, parse: AsteroidParser)
    requires i < |days| && ParseDays(days[..i], parse).Success?
    requires !days[i].1.JArray?
    ensures ParseDays(days[..i + 1], parse) == Failure(AsArray(days[i].1).error)
  {
    var prefix := days[..i + 1];
    assert prefix[..|prefix| - 1] == days[..i] && prefix[|prefix| - 1] == days[i];
  }

  lemma DayNotArray(days: Members, i: nat, parse: AsteroidParser)
    requires i < |days| && ParseDays(days[..i], parse).Success?
    requires !days[i].1.JArray?
    ensures ParseDays(days, parse) == Failure(AsArray(days[i].1).error)
  {
    DayNotArrayStep(days, i, parse);
    DaysFailureSticks(days, i + 1, parse);
  }

  /** A day whose entries fail ends the prefix up to it with that exception. */
  lemma DayEntriesFailStep(days: Members, i: nat, parse: AsteroidParser)
    requires i < |days| && ParseDays(days[..i], parse).Success?
    requires days[i].1.JArray? && ParseEntries(days[i].1.elems, parse).Failure?
    ensures ParseDays(days[..i + 1], parse) == Failure(ParseEntries(days[i].1.elems, parse).error)
  {
    var prefix := days[..i + 1];
    assert prefix[..|prefix| - 1] == days[..i] && prefix[|prefix| - 1] == days[i];
  }

  lemma DayEntriesFail(days: Members, i: nat, parse: AsteroidParser)
    requires i < |days| && ParseDays(days[..i], parse).Success?
    requires days[i].1.JArray? && ParseEntries(days[i].1.elems, parse).Failure?
    ensures ParseDays(days, parse) == Failure(ParseEntries(days[i].1.elems, parse).error)
  {
    DayEntriesFailStep(days, i, parse);
    DaysFailureSticks(days, i + 1, parse);
  }

  // ---------------------------------------------------------------------------
  // What `parseAsteroids` returns, stated against the asteroid objects of
  // the payload

  /** The asteroid objects of one day's array, in order. */
  function ObjectEntries(entries: seq<Json>): seq<Members>
  {
    if entries == [] then []
    else
      var last := entries[|entries| - 1];
      ObjectEntries(entries[..|entries| - 1]) + (if last.JObject? then [last.members] else [])
  }

  /** The asteroid objects of every day whose value is an array, in day order. */
  function DayObjects(days: Members): seq<Members>
  {
    if days == [] then []
    else
      var last := days[|days| - 1].1;
      DayObjects(days[..|days| - 1]) + (if last.JArray? then ObjectEntries(last.elems) else [])
  }

  /** Every object in `objects` parses. */
  predicate AllParse(objects: seq<Members>, parse: AsteroidParser)
  {
    forall k :: 0 <= k < |objects| ==> parse(objects[k]).Success?
  }

  /** `asteroids` holds, position by position, the parse of each object. */
  predicate ParsedEach(asteroids: seq<Asteroid>, objects: seq<Members>, parse: AsteroidParser)
  {
    && |asteroids| == |objects|
    && forall k :: 0 <= k < |objects| ==> parse(objects[k]) == Success(asteroids[k])
  }

  lemma AllParseAppend(a: seq<Members>, b: seq<Members>, parse: AsteroidParser)
    ensures AllParse(a + b, parse) <==> AllParse(a, parse) && AllParse(b, parse)
  {
    if AllParse(a, parse) && AllParse(b, parse) {
      forall k | 0 <= k < |a + b| ensures parse((a + b)[k]).Success? {
        if k >= |a| { assert (a + b)[k] == b[k - |a|]; }
      }
    }
    if AllParse(a + b, parse) {
      forall k | 0 <= k < |a| ensures parse(a[k]).Success? {
        assert (a + b)[k] == a[k];
      }
      forall k | 0 <= k < |b| ensures parse(b[k]).Success? {
        assert (a + b)[|a| + k] == b[k];
      }
    }
  }

  lemma ParsedEachAppend(x: seq<Asteroid>, a: seq<Members>, y: seq<Asteroid>, b: seq<Members>, parse: AsteroidParser)
    requires ParsedEach(x, a, parse) && ParsedEach(y, b, parse)
    ensures ParsedEach(x + y, a + b, parse)
  {
    forall k | 0 <= k < |a + b| ensures parse((a + b)[k]) == Success((x + y)[k]) {
      if k >= |a| { assert (a + b)[k] == b[k - |a|] && (x + y)[k] == y[k - |a|]; }
    }
  }

  /**
   * One day's array parses exactly when each of its objects parses, and then
   * gives one asteroid per object, in order.
   */
  lemma {:induction false} EntriesCharacterized(entries: seq<Json>, parse: AsteroidParser)
    ensures ParseEntries(entries, parse).Success? <==> AllParse(ObjectEntries(entries), parse)
    ensures ParseEntries(entries, parse).Success? ==>
              ParsedEach(ParseEntries(entries, parse).value, ObjectEntries(entries), parse)
  {
    if entries != [] {
      var init, last := entries[..|entries| - 1], entries[|entries| - 1];
      EntriesCharacterized(init, parse);
      var tail := if last.JObject? then [last.members] else [];
      assert ObjectEntries(entries) == ObjectEntries(init) + tail;
      assert AllParse(tail, parse) <==> !last.JObject? || parse(last.members).Success? by {
        if last.JObject? { assert tail[0] == last.members; }
      }
      AllParseAppend(ObjectEntries(init), tail, parse);
      if ParseEntries(entries, parse).Success? {
        var tailParsed := if last.JObject? then [parse(last.members).value] else [];
        ParsedEachAppend(ParseEntries(init, parse).value, ObjectEntries(init), tailParsed, tail, parse);
      }
    }
  }

  /**
   * All days parse exactly when each day's value is an array and each of
   * their objects parses; the asteroids are then one per object, days in
   * order and objects in order within a day.
   */
  lemma {:induction false} DaysCharacterized(days: Members, parse: AsteroidParser)
    ensures ParseDays(days, parse).Success? <==>
              (forall i :: 0 <= i < |days| ==> days[i].1.JArray?) && AllParse(DayObjects(days), parse)
    ensures ParseDays(days, parse).Success? ==> ParsedEach(ParseDays(days, parse).value, DayObjects(days), parse)
  {
    if days != [] {
      var init, last := days[..|days| - 1], days[|days| - 1].1;
      DaysCharacterized(init, parse);
      assert forall i :: 0 <= i < |init| ==> init[i] == days[i];
      if last.JArray? {
        EntriesCharacterized(last.elems, parse);
        AllParseAppend(DayObjects(init), ObjectEntries(last.elems), parse);
        if ParseDays(days, parse).Success? {
          ParsedEachAppend(ParseDays(init, parse).value, DayObjects(init),
                           ParseEntries(last.elems, parse).value, ObjectEntries(last.elems), parse);
        }
      }
    }
  }

  /**
   * `parseAsteroids` end to end: a payload without a `near_earth_objects`
   * object throws, an empty one gives no asteroids, and otherwise the result
   * is one asteroid per asteroid object of the payload, and it throws when
   * a day is not an array, an object does not parse or there is no object.
   */
  lemma AsteroidsOfCharacterized(asteroidsFullData: Members, parse: AsteroidParser)
    ensures !Get(asteroidsFullData, NEAR_EARTH_OBJECTS).JObject? ==> AsteroidsOf(asteroidsFullData, parse).Failure?
    ensures Get(asteroidsFullData, NEAR_EARTH_OBJECTS) == JObject([]) ==> AsteroidsOf(asteroidsFullData, parse) == Success([])
    ensures Get(asteroidsFullData, NEAR_EARTH_OBJECTS).JObject? && Get(asteroidsFullData, NEAR_EARTH_OBJECTS) != JObject([]) ==>
      var days := Get(asteroidsFullData, NEAR_EARTH_OBJECTS).members;
      && (AsteroidsOf(asteroidsFullData, parse).Success? <==>
            && (forall i :: 0 <= i < |days| ==> days[i].1.JArray?)
            && AllParse(DayObjects(days), parse)
            && DayObjects(days) != [])
      && (AsteroidsOf(asteroidsFullData, parse).Success? ==>
            ParsedEach(AsteroidsOf(asteroidsFullData, parse).value, DayObjects(days), parse))
  {
    var neo := Get(asteroidsFullData, NEAR_EARTH_OBJECTS);
    if neo.JObject? {
      DaysCharacterized(neo.members, parse);
    }
  }

  /** With every day an array and every object parsing, a payload without any asteroid object throws. */
  lemma NoAsteroidThrows(asteroidsFullData: Members, parse: AsteroidParser)
    requires Get(asteroidsFullData, NEAR_EARTH_OBJECTS).JObject?
    requires var days := Get(asteroidsFullData, NEAR_EARTH_OBJECTS).members;
      && days != []
      && (forall i :: 0 <= i < |days| ==> days[i].1.JArray?)
      && DayObjects(days) == []
    ensures AsteroidsOf(asteroidsFullData, parse) == Failure(NoSuchElement)
  {
    DaysCharacterized(Get(asteroidsFullData, NEAR_EARTH_OBJECTS).members, parse);
  }

  /** The day keys of `near_earth_objects` play no part: only the values, in order, do. */
  lemma {:induction false} DayKeysIgnored(days: Members, others: Members, parse: AsteroidParser)
    requires |days| == |others|
    requires forall i :: 0 <= i < |days| ==> days[i].1 == others[i].1
    ensures ParseDays(days, parse) == ParseDays(others, parse)
  {
    if days != [] {
      var n := |days| - 1;
      DayKeysIgnored(days[..n], others[..n], parse);
    }
  }

  // ---------------------------------------------------------------------------
  // A one-day, one-record feed

  /** The payload `{"near_earth_objects": {day: [asteroid]}}`. */
  function OneRecordFeed(day: string, asteroid: Members): Members
  {
    [(NEAR_EARTH_OBJECTS, JObject([(day, JArray([JObject(asteroid)]))]))]
  }

  /** A feed of one well-formed record parses to exactly that record's asteroid. */
  lemma OneRecordParses(day: string, asteroid: Members, toDouble: DoubleParser)
    requires WellFormedAsteroid(asteroid, toDouble)
    ensures AsteroidsOf(OneRecordFeed(day, asteroid), AsteroidParserFor(toDouble))
         == Success([ParseAsteroid(asteroid, toDouble).value])
  {
    ParseAsteroidSucceeds(asteroid, toDouble);
    var parse := AsteroidParserFor(toDouble);
    var parsed := ParseAsteroid(asteroid, toDouble).value;
    assert parse(asteroid) == Success(parsed);
    var entries := [JObject(asteroid)];
    var days := [(day, JArray(entries))];
    assert entries[..0] == [] && entries[..1] == entries;
    assert ParseEntries(entries[..0], parse) == Success([]);
    assert entries[0].JObject? && entries[0].members == asteroid;
    EntryStep(entries, 0, parse);
    assert ParseEntries(entries[..0], parse).value + [parse(entries[0].members).value] == [parsed];
    assert ParseEntries(entries, parse) == Success([parsed]);
    assert days[..0] == [] && days[..1] == days;
    assert ParseDays(days[..0], parse) == Success([]);
    assert days[0].1 == JArray(entries);
    DayStep(days, 0, parse);
    assert ParseDays(days[..0], parse).value + ParseEntries(days[0].1.elems, parse).value == [parsed];
    assert ParseDays(days, parse) == Success([parsed]);
  }

  /**
   * The sample record of the feed, id `2465633`, name `465633 (2009 JR5)`,
   * potentially hazardous: alone in a feed it gives one asteroid with those
   * fields.
   */
  lemma SampleRecordParses(day: string, asteroid: Members, toDouble: DoubleParser)
    requires WellFormedAsteroid(asteroid, toDouble)
    requires Get(asteroid, ID) == JString("2465633")
    requires Get(asteroid, NAME) == JString("465633 (2009 JR5)")
    requires Get(asteroid, IS_POTENTIALLY_HAZARDOUS_ASTEROID) == JBool(true)
    ensures var r := AsteroidsOf(OneRecordFeed(day, asteroid), AsteroidParserFor(toDouble));
      && r.Success? && |r.value| == 1
      && r.value[0].id == 2465633
      && r.value[0].codename == "465633 (2009 JR5)"
      && r.value[0].isPotentiallyHazardous
  {
    OneRecordParses(day, asteroid, toDouble);
    ParseAsteroidValue(asteroid, toDouble);
    SampleIdConverts();
  }
}
