# Asteroid Radar: feed to cache to screen, modelled in Dafny

Asteroid Radar is an Android app. Once a day it asks NASA's NeoWs feed for the
asteroids that pass close to Earth in the coming week. It maps the decoded JSON
answer to `Asteroid` records and caches them in a Room table keyed by asteroid
id. The main screen then shows the cached rows for today, for the week or for
all saved days, newest first. Tapping a row opens its detail screen, through a
one-slot "asteroid to navigate to" state.

This project models that sequential path, file by file:

- `json.dfy`: the decoded JSON tree, with objects as ordered member lists. It
  also holds Kotlin's map lookup and its unchecked `as` casts, each with the
  exception it throws.
- `wrappers.dfy`: `Option`, `Result` and the exceptions that abort a parse:
  - a null cast;
  - a class cast;
  - an index out of bounds;
  - a number format error;
  - a date parse error;
  - `last()` on an empty list;
  - a network failure.
- `float64.dfy`: an opaque `Double` that is only copied. `String.toDouble()`
  is a parser passed in as a parameter.
- `decimal.dfy`: ASCII digit strings and their values.
- `civil_calendar.dfy`: civil dates, with the month lengths and leap years of
  section 5.7 of RFC 3339. It has the day-by-day shift of
  `Calendar.add(Calendar.DATE, n)` for dates from 1582-10-15 on, a day
  numbering to reason about order, and a small `Calendar` class.
- `date_utils.dfy`: `DateUtils`, which parses and writes `yyyy-MM-dd` (the
  `full-date` production of section 5.6 of RFC 3339) and adds days.
- `network_objects.dfy`: `parseAsteroid`, `parseDailyPicture`, the private
  `getDateFromString` and `String.toLong()`.
- `network_utils.dfy`: `parseAsteroids` and `getNearEarthObjects`.
  - `parseAsteroids` is written as the source runs it, with two nested loops
    that append to a list.
  - It is proved equal to a recursive definition.
  - That definition is characterised against the asteroid objects of the
    payload.
- `domain.dfy`, `database_entities.dfy`, `data_transfer_objects.dfy` and
  `converters.dfy`: the records, the rows and the conversions between them.
  This includes the null-preserving `Date`/`Long` type converter.
- `room.dfy`: `AsteroidDao`, a class over the table (`map<int, DatabaseAsteroid>`).
  - `insertAll` inserts or replaces.
  - The two queries are ordered by close-approach date, newest first.
- `repository.dfy`: `AsteroidsRepository.refreshAsteroids`. It works out the
  request window, asks the feed, parses the answer, converts it and inserts it.
- `view_model.dfy`: `MainViewModel`: the three filters, the query the list is
  bound to, the navigation slot and the refresh whose failure is caught.

Inputs from outside the program are parameters:

- "Today" and the day after it are `Date` inputs. `DateUtils.getDateWithoutTime`
  and `getDateOfNextDay` are not part of this model.
- The feed request is a function from the start and end texts to the decoded
  answer or the exception of the request.
- `String.toDouble()` is a parser passed in.

## Model

| member | source | states |
|---|---|---|
| Json.GetFindsFirst | starter/app/src/main/java/com/udacity/asteroidradar/api/NetworkUtils.kt:58-60 | A lookup returns the value of the member with that name. |
| Json.GetAbsent | starter/app/src/main/java/com/udacity/asteroidradar/api/NetworkUtils.kt:58-60 | A lookup of a name no member has gives `null`. |
| Json.AsString | starter/app/src/main/java/com/udacity/asteroidradar/api/NetworkUtils.kt:58-60 | `as String` succeeds exactly on a string and gives its text. A `null` fails with a null cast. |
| Json.AsBoolean | starter/app/src/main/java/com/udacity/asteroidradar/api/NetworkUtils.kt:85-86 | `as Boolean` succeeds exactly on a boolean and gives it. A `null` fails with a null cast. |
| Json.AsDouble | starter/app/src/main/java/com/udacity/asteroidradar/api/NetworkUtils.kt:67-68 | `as Double` succeeds exactly on a number and gives it. A `null` fails with a null cast. |
| Json.AsArray | starter/app/src/main/java/com/udacity/asteroidradar/api/NetworkUtils.kt:62-63 | `as ArrayList<*>` succeeds exactly on an array and gives its elements. A `null` fails with a null cast. |
| Json.AsObject | starter/app/src/main/java/com/udacity/asteroidradar/api/NetworkUtils.kt:128-129 | `as Map<*, *>` succeeds exactly on an object and gives its members. A `null` fails with a null cast. |
| CivilCalendar.DaysInMonth | starter/app/src/main/java/com/udacity/asteroidradar/DateUtils.kt:22-23 | A month has 28 to 31 days. It has 29 exactly for February of a leap year. |
| CivilCalendar.ShiftDayNumber | starter/app/src/main/java/com/udacity/asteroidradar/DateUtils.kt:61 | Adding `n` days moves the day number by exactly `n`, forwards or backwards. |
| CivilCalendar.ShiftBack | starter/app/src/main/java/com/udacity/asteroidradar/DateUtils.kt:61 | Adding `-n` days undoes adding `n` days. |
| CivilCalendar.DayNumberOrder | starter/app/src/main/java/com/udacity/asteroidradar/database/Room.kt:29-32 | Calendar order of two dates is exactly the order of their day numbers. |
| CivilCalendar.Calendar.constructor | starter/app/src/main/java/com/udacity/asteroidradar/DateUtils.kt:59-60 | The calendar is set to the given day. |
| CivilCalendar.Calendar.AddDate | starter/app/src/main/java/com/udacity/asteroidradar/DateUtils.kt:61 | `add(Calendar.DATE, days)` moves the calendar `days` days from where it was. |
| DateUtils.GetDateFromString | starter/app/src/main/java/com/udacity/asteroidradar/DateUtils.kt:18-27 | Only a `dddd-dd-dd` text parses, to a year from 0 to 9999. Any failure is a parse exception carrying the text. |
| DateUtils.FormatHasLayout | starter/app/src/main/java/com/udacity/asteroidradar/DateUtils.kt:38-41 | Formatting any date with a four-digit year writes the `yyyy-MM-dd` layout. |
| DateUtils.YearTextValue | starter/app/src/main/java/com/udacity/asteroidradar/DateUtils.kt:36-41 | The `yyyy` field writes at least four ASCII digits, whose value is the era year: the year itself from 1 on, `1 - year` before. |
| DateUtils.FormatFields | starter/app/src/main/java/com/udacity/asteroidradar/DateUtils.kt:33-41 | `toYearMonthsDays()` writes the era year, a dash, the two-digit month, a dash and the two-digit day, and each field reads back as the date's own value. |
| DateUtils.ParseOfFormat | starter/app/src/main/java/com/udacity/asteroidradar/DateUtils.kt:18-41 | Formatting a date of years 0001 to 9999 and parsing the text gives the date back. |
| DateUtils.FormatOfParse | starter/app/src/main/java/com/udacity/asteroidradar/DateUtils.kt:18-41 | Parsing a text to a date from year 0001 on and formatting it gives the same text back. |
| DateUtils.YearZeroPrintsAsOne | starter/app/src/main/java/com/udacity/asteroidradar/DateUtils.kt:18-41 | `0000-01-01` parses to 1 BC, which the era-based `yyyy` field writes back as `0001-01-01`. The round trip stops at year 1. |
| DateUtils.AddDays | starter/app/src/main/java/com/udacity/asteroidradar/DateUtils.kt:58-63 | The result is `days` calendar days after `date` (before it when negative). Its day number differs by exactly `days`. |
| DateUtils.GetDate6DaysLater | starter/app/src/main/java/com/udacity/asteroidradar/DateUtils.kt:50-53 | The result is `addDays(date, 6)`: not before `date`, and six day numbers later. |
| DateUtils.WeekWindow | starter/app/src/main/java/com/udacity/asteroidradar/DateUtils.kt:50-53 | The inclusive window from `date` to six days later holds exactly the seven days `date + k` for `k` in 0..6, all distinct. |
| DateUtils.BackwardsShift | starter/app/src/main/java/com/udacity/asteroidradar/DateUtils.kt:58-63 | A negative count moves back by that many days, to an earlier date, and moving forward again restores the date. |
| DateUtils.SixDaysAfterMay27 | starter/app/src/test/java/com/udacity/asteroidradar/DateUtilsTest.kt:38-46 | `2021-05-27` parses, six days later is 2021-06-02 across the end of May, and it formats as `2021-06-02`. |
| NetworkObjects.ToLong | starter/app/src/main/java/com/udacity/asteroidradar/api/NetworkUtils.kt:58-59 | A successful `toLong()` is within the `Long` range of a non-empty text. Every failure is a number-format exception carrying the text. |
| NetworkObjects.ToLongUnsigned | starter/app/src/main/java/com/udacity/asteroidradar/api/NetworkUtils.kt:58-59 | Unsigned digits whose value fits a `Long` convert to that value. |
| NetworkObjects.ToLongNegative | starter/app/src/main/java/com/udacity/asteroidradar/api/NetworkUtils.kt:58-59 | `-` then digits convert to the negated value when it fits a `Long`. |
| NetworkObjects.ToLongOfDecimal | starter/app/src/main/java/com/udacity/asteroidradar/api/NetworkUtils.kt:58-59 | The decimal text of every non-negative `Long` converts back to it. |
| NetworkObjects.ToLongOfNegative | starter/app/src/main/java/com/udacity/asteroidradar/api/NetworkUtils.kt:58-59 | `-` and the decimal text of a magnitude from 1 to 2^63 convert to the negative `Long`. |
| NetworkObjects.ToLongRejectsNonDigit | starter/app/src/main/java/com/udacity/asteroidradar/api/NetworkUtils.kt:58-59 | A text with a non-digit after the first character never converts. |
| NetworkObjects.ToDouble | starter/app/src/main/java/com/udacity/asteroidradar/api/NetworkUtils.kt:75-83 | `toDouble()` succeeds exactly when the parser accepts the text, with the parser's value. |
| NetworkObjects.GetDateFromString | starter/app/src/main/java/com/udacity/asteroidradar/api/NetworkUtils.kt:120-126 | The private date parser gives exactly what `DateUtils.getDateFromString` gives. The id plays no part. |
| NetworkObjects.IdOf | starter/app/src/main/java/com/udacity/asteroidradar/api/NetworkUtils.kt:58-59 | The id parses exactly when `id` is a string that `toLong()` accepts, and then it is that number. |
| NetworkObjects.CloseApproachData | starter/app/src/main/java/com/udacity/asteroidradar/api/NetworkUtils.kt:62-63 | It succeeds exactly when the first element of `close_approach_data` is an object, giving its members. An empty array throws index out of bounds. |
| NetworkObjects.EstimatedDiameterKm | starter/app/src/main/java/com/udacity/asteroidradar/api/NetworkUtils.kt:70-73 | The read succeeds exactly when `estimated_diameter.kilometers.estimated_diameter_max` is a number, and gives that number. |
| NetworkObjects.NestedDouble | starter/app/src/main/java/com/udacity/asteroidradar/api/NetworkUtils.kt:75-83 | The read succeeds exactly when `outer.inner` is a string that `toDouble()` accepts, and gives the converted value. |
| NetworkObjects.ParseAsteroid | starter/app/src/main/java/com/udacity/asteroidradar/api/NetworkUtils.kt:57-100 | The id is read first: a bad id fails the parse with its own exception. A parsed asteroid carries the id's value and the `name` string as codename. |
| NetworkObjects.ParseAsteroidSucceeds | starter/app/src/main/java/com/udacity/asteroidradar/api/NetworkUtils.kt:57-100 | An asteroid object parses exactly when it is well formed: string `id` that is a `Long`, string `name`, a first `close_approach_data` object with a valid `yyyy-MM-dd` date, numeric magnitude and diameter, speed and miss distance strings that `toDouble()` accepts, and a boolean hazard flag. |
| NetworkObjects.ParseAsteroidValue | starter/app/src/main/java/com/udacity/asteroidradar/api/NetworkUtils.kt:57-100 | A well-formed object parses to the asteroid built field by field from it. |
| NetworkObjects.SampleIdConverts | starter/app/src/main/java/com/udacity/asteroidradar/api/NetworkUtils.kt:58-59 | The feed's id `2465633` converts to the `Long` 2465633. |
| NetworkObjects.ParsedOwnFields | starter/app/src/main/java/com/udacity/asteroidradar/api/NetworkUtils.kt:57-100 | A parsed asteroid has these fields of the object: `id` as the decimal value of its string, `name` as codename, the magnitude, the kilometre maximum diameter and the hazard flag. |
| NetworkObjects.ParsedApproachFields | starter/app/src/main/java/com/udacity/asteroidradar/api/NetworkUtils.kt:62-88 | A parsed asteroid's date, speed and miss distance come from the first `close_approach_data` element. The date is its `close_approach_date` parsed as `yyyy-MM-dd`. |
| NetworkObjects.ParseAsteroidFailures | starter/app/src/main/java/com/udacity/asteroidradar/api/NetworkUtils.kt:57-63 | An `id` that is not a string, or not a `Long`, makes the parse fail; the latter with that number-format exception. An empty `close_approach_data` makes it fail too. |
| NetworkObjects.ParseDailyPicture | starter/app/src/main/java/com/udacity/asteroidradar/api/NetworkUtils.kt:102-118 | A `date` that is not a string fails the parse with that cast's exception. A parsed picture's id is the raw `date` text, which parses to its date. |
| NetworkObjects.DailyPictureParses | starter/app/src/main/java/com/udacity/asteroidradar/api/NetworkUtils.kt:102-118 | A picture parses exactly when `date`, `title`, `media_type` and `url` are strings and `date` is a valid `yyyy-MM-dd`. |
| NetworkObjects.DailyPictureFields | starter/app/src/main/java/com/udacity/asteroidradar/api/NetworkUtils.kt:102-118 | The raw `date` text is the id, and parsed it is the date. Title, media type and url are copied. From year 1 on, the id is the formatted date. |
| NetworkUtils.GetNearEarthObjects | starter/app/src/main/java/com/udacity/asteroidradar/api/NetworkUtils.kt:128-129 | It succeeds exactly when `near_earth_objects` is an object, giving its members. |
| NetworkUtils.ParseAsteroids | starter/app/src/main/java/com/udacity/asteroidradar/api/NetworkUtils.kt:19-55 | The nested loops that append to `domainAsteroids` return exactly the result of the recursive definition `AsteroidsOf`, failures included. |
| NetworkUtils.EntriesFailureSticks | starter/app/src/main/java/com/udacity/asteroidradar/api/NetworkUtils.kt:35-48 | Once a prefix of a day's array fails, the whole array fails with that exception. |
| NetworkUtils.DaysFailureSticks | starter/app/src/main/java/com/udacity/asteroidradar/api/NetworkUtils.kt:32-51 | Once a prefix of the days fails, the whole parse of the days fails with that exception. |
| NetworkUtils.OneRecordParses | starter/app/src/main/java/com/udacity/asteroidradar/api/NetworkUtils.kt:19-55 | A feed of one day holding one well-formed asteroid object parses to the one-element list of that object's asteroid. |
| NetworkUtils.SampleRecordParses | starter/app/src/main/java/com/udacity/asteroidradar/api/NetworkUtils.kt:19-100 | A well-formed one-record feed with id `2465633`, name `465633 (2009 JR5)` and hazard flag `true` gives one asteroid with exactly those id, codename and flag. |
| NetworkUtils.EntryFails | starter/app/src/main/java/com/udacity/asteroidradar/api/NetworkUtils.kt:37-42 | The first object of a day that fails to parse ends that day with its exception. |
| NetworkUtils.DayNotArray | starter/app/src/main/java/com/udacity/asteroidradar/api/NetworkUtils.kt:33 | The first day whose value is not an array ends the parse with the cast's exception. |
| NetworkUtils.DayEntriesFail | starter/app/src/main/java/com/udacity/asteroidradar/api/NetworkUtils.kt:33-45 | The first day whose objects fail ends the parse with that exception. |
| NetworkUtils.EntriesCharacterized | starter/app/src/main/java/com/udacity/asteroidradar/api/NetworkUtils.kt:35-48 | A day parses exactly when each of its objects parses. It then gives one asteroid per object in array order, and skips non-object entries. |
| NetworkUtils.DaysCharacterized | starter/app/src/main/java/com/udacity/asteroidradar/api/NetworkUtils.kt:32-51 | The days parse exactly when every day is an array and every object parses. They then give one asteroid per object, day order then array order. |
| NetworkUtils.AsteroidsOfCharacterized | starter/app/src/main/java/com/udacity/asteroidradar/api/NetworkUtils.kt:19-55 | See the note below the table. |
| NetworkUtils.NoAsteroidThrows | starter/app/src/main/java/com/udacity/asteroidradar/api/NetworkUtils.kt:53 | A non-empty `near_earth_objects` whose days hold no asteroid object throws at `last()`. |
| NetworkUtils.DayKeysIgnored | starter/app/src/main/java/com/udacity/asteroidradar/api/NetworkUtils.kt:32-33 | The day keys play no part: days with the same values in the same order parse alike. |
| DatabaseEntities.DatabaseAsteroidsAsDomainModel | starter/app/src/main/java/com/udacity/asteroidradar/database/DatabaseEntities.kt:26-39 | Same length and order, and each asteroid carries its row's eight fields. |
| DatabaseEntities.DatabaseDailyPicturesAsDomainModel | starter/app/src/main/java/com/udacity/asteroidradar/database/DatabaseEntities.kt:54-64 | Same length and order, and each picture carries its row's five fields. |
| DatabaseEntities.AsDomainModelAppend | starter/app/src/main/java/com/udacity/asteroidradar/database/DatabaseEntities.kt:26-39 | Converting rows converts each row on its own: the conversion commutes with concatenation. |
| DatabaseEntities.DailyPicturesKeepEverything | starter/app/src/main/java/com/udacity/asteroidradar/database/DatabaseEntities.kt:54-64 | The picture conversion is injective: rows that convert alike are equal. |
| DataTransferObjects.AsDatabaseModel | starter/app/src/main/java/com/udacity/asteroidradar/network/DataTransferObjects.kt:19-33 | Same length and order, and each row carries its asteroid's eight fields. |
| DataTransferObjects.DomainOfDatabase | starter/app/src/main/java/com/udacity/asteroidradar/network/DataTransferObjects.kt:19-33 | `asDomainModel(asDatabaseModel(xs)) == xs`. |
| DataTransferObjects.DatabaseOfDomain | starter/app/src/main/java/com/udacity/asteroidradar/database/DatabaseEntities.kt:26-39 | `asDatabaseModel(asDomainModel(rows)) == rows`. |
| DataTransferObjects.KeepsDuplicateIds | starter/app/src/main/java/com/udacity/asteroidradar/network/DataTransferObjects.kt:19-32 | Two asteroids with the same id become two rows with the same id: the conversion does not deduplicate. |
| Converters.FromTimestamp | radar/app/src/main/java/com/udacity/asteroidradar/database/Converters.kt:10-12 | `null` stays `null`. A timestamp becomes the instant with that time. |
| Converters.DateToTimestamp | radar/app/src/main/java/com/udacity/asteroidradar/database/Converters.kt:15-17 | `null` stays `null`. An instant becomes its time. |
| Converters.TimestampRoundTrip | radar/app/src/main/java/com/udacity/asteroidradar/database/Converters.kt:10-17 | `dateToTimestamp(fromTimestamp(v)) == v`, `null` included. |
| Converters.DateRoundTrip | radar/app/src/main/java/com/udacity/asteroidradar/database/Converters.kt:10-17 | `fromTimestamp(dateToTimestamp(d)) == d`, `null` included. |
| Converters.StoredOrder | starter/app/src/main/java/com/udacity/asteroidradar/database/Room.kt:29-32 | Days stored as the timestamps of their starts compare like the calendar, and distinct days get distinct timestamps. |
| Room.UpsertKeys | starter/app/src/main/java/com/udacity/asteroidradar/database/Room.kt:34-37 | After an insert, the ids are the old ids plus the batch's ids: nothing is deleted. |
| Room.Upsert | starter/app/src/main/java/com/udacity/asteroidradar/database/Room.kt:34-37 | Insert-or-replace keeps every id the table had and stores every id of the batch. |
| Room.UpsertLastWins | starter/app/src/main/java/com/udacity/asteroidradar/database/Room.kt:34-37 | Each id of the batch holds the last row of the batch with that id. |
| Room.UpsertKeepsOthers | starter/app/src/main/java/com/udacity/asteroidradar/database/Room.kt:34-37 | An id not in the batch keeps its row, or stays absent. |
| Room.UpsertOverrides | starter/app/src/main/java/com/udacity/asteroidradar/database/Room.kt:34-37 | Under an id of the batch, the result does not depend on what the table held before. |
| Room.UpsertKeyed | starter/app/src/main/java/com/udacity/asteroidradar/database/DatabaseEntities.kt:13-14 | Inserts keep the primary key: every row stays under its own id, so no two rows share an id. |
| Room.UpsertIdempotent | starter/app/src/main/java/com/udacity/asteroidradar/database/Room.kt:34-37 | Inserting the same batch twice gives the table that inserting it once gives. |
| Room.StoredRow | starter/app/src/main/java/com/udacity/asteroidradar/database/DatabaseEntities.kt:13-14 | Under the primary key, a row is in the table exactly when its id maps to it. |
| Room.AsteroidDao.InsertAll | starter/app/src/main/java/com/udacity/asteroidradar/database/Room.kt:34-37 | Row by row insert-or-replace gives `Upsert(old table, batch)` and keeps the primary key. |
| Room.AsteroidDao.RowsNewestFirst | starter/app/src/main/java/com/udacity/asteroidradar/database/Room.kt:19-20 | The rows of the given ids, each once, ordered by close-approach date, newest first. |
| Room.AsteroidDao.GetAllAsteroids | starter/app/src/main/java/com/udacity/asteroidradar/database/Room.kt:19-20 | Every row of the table, each once, ordered by close-approach date, newest first. |
| Room.AsteroidDao.GetAsteroidsWithinTimeSpan | starter/app/src/main/java/com/udacity/asteroidradar/database/Room.kt:29-32 | Exactly the rows with `start <= date <= end`, each once, newest first. Nothing when `start` is after `end`. |
| Repository.RequestWindowDates | starter/app/src/main/java/com/udacity/asteroidradar/repository/Repository.kt:165-168 | The request texts are `yyyy-MM-dd` and read back as today and today plus six days, six day numbers apart. |
| Repository.RefreshStoresParsed | starter/app/src/main/java/com/udacity/asteroidradar/repository/Repository.kt:172-176 | After a refresh, every parsed asteroid whose id is not repeated later is cached under its id. The row reads back as that asteroid. |
| Repository.RefreshKeepsAbsent | starter/app/src/main/java/com/udacity/asteroidradar/repository/Repository.kt:176 | A cached row whose id is not in the payload is kept as it was. |
| Repository.RefreshIds | starter/app/src/main/java/com/udacity/asteroidradar/repository/Repository.kt:176 | After a refresh, the cached ids are the old ones plus the payload's ids. |
| Repository.AsteroidsRepository.RefreshAsteroids | starter/app/src/main/java/com/udacity/asteroidradar/repository/Repository.kt:164-180 | See the note below the table. |
| ViewModel.TodayFilterSelects | starter/app/src/main/java/com/udacity/asteroidradar/main/MainViewModel.kt:65-67 | The today filter selects exactly the rows dated today. |
| ViewModel.WeekFilterSelects | starter/app/src/main/java/com/udacity/asteroidradar/main/MainViewModel.kt:69-75 | The week filter selects exactly the rows dated on one of the seven days from today. |
| ViewModel.SavedFilterSelects | starter/app/src/main/java/com/udacity/asteroidradar/main/MainViewModel.kt:76-78 | The saved filter selects every row, so it selects whatever any filter selects. |
| ViewModel.MainViewModel.constructor | starter/app/src/main/java/com/udacity/asteroidradar/main/MainViewModel.kt:47-55 | The list starts bound to the rows from today to the next day. The navigation slot starts empty. |
| ViewModel.MainViewModel.FilterAsteroids | starter/app/src/main/java/com/udacity/asteroidradar/main/MainViewModel.kt:62-80 | The list is bound to the filter's query: today to today, today to six days later, or all rows. The navigation slot is untouched. |
| ViewModel.MainViewModel.FilterByDates | starter/app/src/main/java/com/udacity/asteroidradar/main/MainViewModel.kt:86-108 | With both dates, the list is bound to that time span, otherwise to all rows. The navigation slot is untouched. |
| ViewModel.MainViewModel.Shown | starter/app/src/main/java/com/udacity/asteroidradar/main/MainViewModel.kt:87-105 | What the list shows: the cached rows its query selects, each once, newest first, converted to asteroids. |
| ViewModel.MainViewModel.DisplayAsteroidDetails | starter/app/src/main/java/com/udacity/asteroidradar/main/MainViewModel.kt:127-129 | The slot holds the tapped asteroid. The list binding is untouched. |
| ViewModel.MainViewModel.NavigateToAsteroidDetailsComplete | starter/app/src/main/java/com/udacity/asteroidradar/main/MainViewModel.kt:134-136 | The slot is cleared. The list binding is untouched. |
| ViewModel.MainViewModel.RefreshAsteroids | starter/app/src/main/java/com/udacity/asteroidradar/main/MainViewModel.kt:110-121 | A refresh, failed or not, leaves the list binding and the slot as they were. The cache follows the repository refresh. |

Notes on the two longest rows:

- `NetworkUtils.AsteroidsOfCharacterized`:
  - no `near_earth_objects` object means the parse fails;
  - an empty one gives no asteroids;
  - otherwise the parse succeeds exactly when every day is an array, every
    object parses and there is at least one object;
  - the result is then one asteroid per object, in order.
- `Repository.AsteroidsRepository.RefreshAsteroids`:
  - it succeeds exactly when the request, the cast to an object and the parse
    all succeed;
  - a failure passes their exception on and leaves the cache untouched;
  - on success, the cache is the old table with the converted asteroids
    upserted.

## Left out

- Networking, Retrofit and Moshi are left out. The decoded answer of the feed is a parameter, and so is the exception the request throws.
- Coroutines, `Dispatchers.IO` and WorkManager are left out. The database singleton's `synchronized` is left out too. Every operation runs to completion on its own.
- LiveData and `Transformations.map` plumbing is left out. The view model keeps the query its list is bound to, and `Shown` gives what an observer would see. `asteroids2`, `_mutableAsteroids`, `getInitialMutableAsteroids` and the no-argument repository `filterAsteroids` are framework wiring and are not modelled.
- The `init` block's refresh is not part of the constructor. It is launched as a coroutine and runs later, so a caller performs it by calling `RefreshAsteroids` after construction.
- The UI is left out: fragments, the list adapter, binding adapters and activities.
- Floating point: the `Double` fields are opaque and only copied. `String.toDouble()` is a parser passed in, whose rejection aborts the parse.
- `DateUtils.getCurrentDateTime`, `getDateWithoutTime` and `getDateOfNextDay` read the clock or are not part of this model. "Today" and "the next day" are inputs.
- Time zones, DST and millisecond instants are left out, and so are the default and US locales. Dates are civil dates. `Converters.StartOfDay` places a day at its UTC start, only to relate stored timestamps to calendar order.
- The Julian part of `java.util.GregorianCalendar` is left out. The calendar here is proleptic Gregorian. The JDK switches to Julian rules before 1582-10-15 and skips 1582-10-05 to 1582-10-14. So adding one day to 1582-10-04 gives 1582-10-15 on the platform but 1582-10-05 here. Adding one day to 1500-02-28 gives 1500-02-29 on the platform but 1500-03-01 here.
- CivilCalendar.DaysInMonth: agrees with the platform only for years from 1583 on, and for 1582 after October 14. Before that the platform makes every fourth year a leap year.
- CivilCalendar.Calendar.AddDate: agrees with `add(Calendar.DATE, days)` only when both the start and the result fall on or after 1582-10-15.
- DateUtils.AddDays: agrees with the source only when both `date` and the result fall on or after 1582-10-15. The feed's dates are all recent.
- `Date.toString(format, locale)` is modelled only for the `ASTEROIDS_DATE_FORMAT` layout `yyyy-MM-dd`, the one layout the app uses.
- DateUtils.GetDateFromString: `SimpleDateFormat` is lenient by default, but the model is not. The platform rolls an out-of-range month or day over into the next month or year, reads years of more than four digits and ignores trailing text. The model accepts only the strict `full-date` form of RFC 3339.
- DateUtils.ParseOfFormat: stated for years 0001 to 9999. Earlier years print as their era year, as `YearZeroPrintsAsOne` shows, and later years do not fit four digits.
- Repository.RequestWindowDates: stated for windows within years 0001 to 9999, for the same reason.
- NetworkObjects.ToLong: accepts only ASCII digits. `Long.parseLong` also accepts other Unicode decimal digits.
- Exception messages and log lines (Timber) are left out. An exception is modelled by its kind, plus the offending text for number and date errors. A network failure carries no detail.
- The daily-picture table is left out: it has no DAO, so only the picture rows and their conversion are modelled. `NetworkDailyPicture` is unused and is not modelled.
- Ties in the newest-first order are left out. Rows with the same close-approach date may come in any order, as SQL leaves them.
