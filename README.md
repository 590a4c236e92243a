# Alpine huts: a verified model of the data-fetching and website functions

The alpinehut services collect the free beds of Alpine huts from two
booking providers, alpsonline and Hütten-Holiday, store them in one SQL
database, and serve them to a website. This project models, in Dafny, the
logic that sits under the Azure Functions, Entity Framework and HTTP
plumbing:

- **Availability import.** The newer data-fetching app (`FetchDataFunctions`) parses the provider's
  calendar reply, reconciles each day's rows in the `Availability` table
  (with the closed-day sentinel category -1), and notifies free-bed
  subscriptions. The older app (`AzureFunctions`) does the same with a four-way per-room
  upsert. The Hütten-Holiday activity reads the session cookies, walks six
  months and writes one row per date.
- **Hut import.** The hut page is parsed (website, enabled flag, country classifier,
  coordinate search with fallback names). The stored hut is merged under the
  rules of each app. The Hütten-Holiday cabin list is imported page by page,
  and the older app's `UpsertHuts` comes in two variants.
- **Dispatch.** The orchestrators are modelled as plans: the batch-of-10 plan
  with its one-minute timers, the day-of-week sweep, the 100-ids-per-generation
  chain, and the id lists of the HTTP triggers.
- **Parsers and getters.** These are the pure parsers and normalisers: `HutInfoV2`, `ShortHutWebsite`,
  `CommonName`, the bed-category switch, the two "hut closed" predicates,
  and `ParseHutAvailability` of the first app.
- **Website backend.** The website backend groups availability rows per date or per hut,
  runs the admin hut update, and handles the free-bed sign-up with its validation.

Storage is the class `Store.Database` with three tables: huts keyed by id,
availability rows keyed by (hut, day, bed category), and subscriptions in
table order. Writes take effect immediately. The clock ("now", "today"),
HTTP replies, geocoders, HTML extraction and number and date parsing are
parameters of the operations. Operations that loop or update the tables are
methods, each proved against a specification function. The properties of
those functions are proved as lemmas.

## Model

| member | source | states |
|---|---|---|
| AvailabilityModel.HutClosedIff | FetchDataFunctions/Models/HutAvailabiltyModel.cs:15-21 | HutClosed holds iff the room list is null or every room is closed |
| AvailabilityModel.EmptyDayIsClosed | FetchDataFunctions/Models/HutAvailabiltyModel.cs:10-19 | an empty room list counts as closed, and a fresh day has no date and no rooms |
| AvailabilityModel.OpenRoomOpensDay | FetchDataFunctions/Models/HutAvailabiltyModel.cs:19 | one open room makes the day open, whatever the other rooms are |
| AvailabilityModel.AvailabilityDataHutClosed | FetchDataFunctions/Models/AvailabilityData.cs:16 | closed iff hutStatus is "CLOSED" ignoring case, or percentage is; a null field that is compared throws |
| AvailabilityModel.AvailabilityDataExamples | FetchDataFunctions/Models/AvailabilityData.cs:16 | "closed" in either field closes the day; "OPEN" with "45" does not |
| BedCategories.CommonNameCases | FetchDataFunctions/Models/BedCategory.cs:23 | with an alias the common name is the alias's Name, otherwise the own Name |
| BedCategories.CommonNameOneHop | Alpinehuts.Shared/Models/BedCategory.cs:19 | only one alias hop is followed: for a chain c, a, b the common name is a's Name |
| BedCategories.CommonNameDependsOnNames | Alpinehuts.Shared/Models/BedCategory.cs:15-21 | the common name depends only on Name and on the alias's Name |
| BedCategories.BedCategoryNameDefined | AzFunctions/Model/HutAvailabiltyModel.cs:32-42 | exactly the ids 1, 2, 4, 5, 7, 8 and 9 have a name; any other id or null gives null |
| BedCategories.BedCategoryNameShared | AzFunctions/Model/HutAvailabiltyModel.cs:36-39 | two ids share a name only if equal, or 4 and 7, or 5 and 8 |
| AvailabilityCalendar.ApplyRoomsKey | FetchDataFunctions/UpdateAvailabilityFunctions.cs:231-293 | the value the room loop leaves under each key of the day, decided by the last room listed with that category |
| AvailabilityCalendar.ApplyRoomsFrame | FetchDataFunctions/UpdateAvailabilityFunctions.cs:233-235 | the room loop leaves the rows of other huts and other days exactly as they were |
| AvailabilityCalendar.ClosedDayOutcome | FetchDataFunctions/UpdateAvailabilityFunctions.cs:199-227 | a closed day keeps only the sentinel row: the stored one if present, otherwise a new 0/0 row stamped now |
| AvailabilityCalendar.OpenDayOutcome | FetchDataFunctions/UpdateAvailabilityFunctions.cs:231-308 | an open day has a row for c iff c is listed and its last room is open, with that room's counts and the update time |
| AvailabilityCalendar.OpenDayDistinctCategories | FetchDataFunctions/UpdateAvailabilityFunctions.cs:231-308 | with each category listed once, the stored categories are exactly those of the open rooms, each with the fetched counts |
| AvailabilityCalendar.OpenDayUnlisted | FetchDataFunctions/UpdateAvailabilityFunctions.cs:277-308 | on an open day an unlisted category, the sentinel included, has no row |
| AvailabilityCalendar.ReconcileDayFrame | FetchDataFunctions/UpdateAvailabilityFunctions.cs:202-204 | rows of other huts and other days are never changed by a day's reconciliation |
| AvailabilityCalendar.ReconcileDayIdempotent | FetchDataFunctions/UpdateAvailabilityFunctions.cs:199-308 | reconciling a day twice with the same reply is reconciling it once |
| UpdateAvailability.FirstKeptDateSpec | FetchDataFunctions/UpdateAvailabilityFunctions.cs:355-398 | a parsed day has a date iff it kept a record, and the date is its first kept record's |
| UpdateAvailability.KeptRoomsSpec | FetchDataFunctions/UpdateAvailabilityFunctions.cs:355-398 | each record, in order, becomes one room exactly when both category ids are present, and nothing else is added; the count falls short iff a record is dropped |
| UpdateAvailability.ParsedDaysShape | FetchDataFunctions/UpdateAvailabilityFunctions.cs:355-398 | every parsed day has a date and a non-empty room list |
| UpdateAvailability.ParsedDaysAppend | FetchDataFunctions/UpdateAvailabilityFunctions.cs:355-398 | parsing keeps reply order: a concatenated reply gives the concatenated days |
| UpdateAvailability.ParseAvailability | FetchDataFunctions/UpdateAvailabilityFunctions.cs:355-398 | the nested parsing loops compute the parsed days of the reply |
| UpdateAvailability.PreloadIndicesSpec | FetchDataFunctions/UpdateAvailabilityFunctions.cs:174-178 | exactly the subscriptions of the hut, dated up to today+112 and not yet notified, are preloaded, once each, in table order |
| UpdateAvailability.MarkOnDay | FetchDataFunctions/UpdateAvailabilityFunctions.cs:310-330 | preloaded subscriptions dated on a notification day become notified and nothing else changes |
| UpdateAvailability.MessagesOnDayTargets | FetchDataFunctions/UpdateAvailabilityFunctions.cs:310-330 | every preloaded subscription dated on the day gets a message to its address, and every message comes from one |
| UpdateAvailability.MessagesOnDayInOrder | FetchDataFunctions/UpdateAvailabilityFunctions.cs:310-330 | in preload order, each preloaded subscription contributes exactly one message when dated on the day and none otherwise |
| UpdateAvailability.WindowOffsetsSpec | FetchDataFunctions/UpdateAvailabilityFunctions.cs:183 | the windows start at 0, 14, ..., 98 days from now: eight windows, increasing |
| UpdateAvailability.SessionCookie | FetchDataFunctions/UpdateAvailabilityFunctions.cs:170-172 | the session cookie is the first Set-Cookie value starting with "JSESSIONID", none if there is none |
| UpdateAvailability.ProcessDaysOtherHuts | FetchDataFunctions/UpdateAvailabilityFunctions.cs:197-333 | processing a window's days never changes another hut's rows |
| UpdateAvailability.ProcessDaysSubscriptions | FetchDataFunctions/UpdateAvailabilityFunctions.cs:310-330 | a subscription changes only if preloaded and dated on a notification day, and then only Notified becomes true |
| UpdateAvailability.ProcessWindowsNext | FetchDataFunctions/UpdateAvailabilityFunctions.cs:183-334 | one more arrived reply extends the run by that reply's days |
| UpdateAvailability.ReconcileClosedDay | FetchDataFunctions/UpdateAvailabilityFunctions.cs:199-227 | the in-place closed-day update leaves the table of the closed-day specification |
| UpdateAvailability.ReconcileRoom | FetchDataFunctions/UpdateAvailabilityFunctions.cs:233-292 | one room's delete, update, skip or insert and its cleanup, against the specification |
| UpdateAvailability.ReconcileOpenDay | FetchDataFunctions/UpdateAvailabilityFunctions.cs:231-293 | the room loop leaves the table of the open-day specification |
| UpdateAvailability.NotifySubscriptions | FetchDataFunctions/UpdateAvailabilityFunctions.cs:310-330 | the day's preloaded subscriptions are marked and their messages queued, as the specification says |
| UpdateAvailability.ProcessDay | FetchDataFunctions/UpdateAvailabilityFunctions.cs:199-332 | one day from reconciliation to SaveChanges, against the day step |
| UpdateAvailability.ProcessWindow | FetchDataFunctions/UpdateAvailabilityFunctions.cs:197-333 | the days of one window in order, against the specification fold |
| UpdateAvailability.FetchWindows | FetchDataFunctions/UpdateAvailabilityFunctions.cs:179-335 | the eight windows are requested in turn; the run stops at the first reply that does not arrive |
| UpdateAvailability.ActivityOtherHuts | FetchDataFunctions/UpdateAvailabilityFunctions.cs:142-353 | the activity never changes another hut's rows |
| UpdateAvailability.UpdateHutAvailability | FetchDataFunctions/UpdateAvailabilityFunctions.cs:142-353 | an unknown or disabled hut, or a missing JSESSIONID cookie, writes nothing; otherwise the tables and result are the activity specification's |
| UpdateAvailability.TriggerRunOtherHuts | FetchDataFunctions/UpdateAvailabilityFunctions.cs:61-92 | rows of a hut not among the requested ids are left as they were |
| UpdateAvailability.UpdateAvailabilityHttpTriggered | FetchDataFunctions/UpdateAvailabilityFunctions.cs:61-92 | an empty id list is a bad request; otherwise each parsable id is updated in turn and the rows written add up |
| UpdateAvailability.UpdatePieces | FetchDataFunctions/UpdateAvailabilityFunctions.cs:76-89 | the loop leaves the rows and subscriptions of the trigger run over the parsed ids and returns its count of written rows |
| LegacyAvailability.LegacyRooms | AzureFunctions/UpdateAvailabilityFunctions.cs:219-242 | room i is record i converted, for every record of the day |
| LegacyAvailability.ParsersAgree | AzureFunctions/UpdateAvailabilityFunctions.cs:207-245 | when every record carries both ids, the two apps' parsers give the same days |
| LegacyAvailability.LegacyParsedDaysShape | AzureFunctions/UpdateAvailabilityFunctions.cs:219-242 | a day is kept iff it has a record, and then all of its records are kept |
| LegacyAvailability.ParseLegacyAvailability | AzureFunctions/UpdateAvailabilityFunctions.cs:207-245 | the parsing loops compute the legacy parsed days; no record is dropped |
| LegacyAvailability.LegacyApplyRoomsKey | AzureFunctions/UpdateAvailabilityFunctions.cs:151-195 | an unlisted category keeps its row; otherwise the last room with it deletes the row (closed) or stores its counts |
| LegacyAvailability.LegacyApplyRoomsFrame | AzureFunctions/UpdateAvailabilityFunctions.cs:151-195 | rows of other huts and days are untouched |
| LegacyAvailability.LegacyKeepsUnlisted | AzureFunctions/UpdateAvailabilityFunctions.cs:153-192 | there is no cleanup: unlisted categories and the sentinel keep their rows |
| LegacyAvailability.LegacyAgreesWithReconcile | AzureFunctions/UpdateAvailabilityFunctions.cs:153-192 | on an open day with only listed categories stored, the legacy upsert and the newer reconciliation agree |
| LegacyAvailability.LegacyApplyRoomsIdempotent | AzureFunctions/UpdateAvailabilityFunctions.cs:151-195 | upserting the same day twice is upserting it once |
| LegacyAvailability.LegacyCookie | AzureFunctions/UpdateAvailabilityFunctions.cs:131-132 | the first Set-Cookie header is taken whatever its name; none when there is none |
| LegacyAvailability.LegacyCookieIgnoresName | AzureFunctions/UpdateAvailabilityFunctions.cs:131-132 | the legacy activity takes the first cookie while the newer one takes the first JSESSIONID cookie; they differ whenever that is not the first |
| LegacyAvailability.LegacyActivityOtherHuts | AzureFunctions/UpdateAvailabilityFunctions.cs:106-205 | the legacy activity never changes another hut's rows |
| LegacyAvailability.UpsertRoom | AzureFunctions/UpdateAvailabilityFunctions.cs:155-192 | the four-way room upsert in place matches the specification step |
| LegacyAvailability.LegacyProcessWindow | AzureFunctions/UpdateAvailabilityFunctions.cs:151-195 | the days of one window, each saved after its rooms, against the specification fold |
| LegacyAvailability.LegacyFetchWindow | AzureFunctions/UpdateAvailabilityFunctions.cs:141-195 | one window requested, parsed and processed, or the run ends |
| LegacyAvailability.LegacyUpdateHutAvailability | AzureFunctions/UpdateAvailabilityFunctions.cs:106-205 | an unknown or disabled hut, or no cookie, writes 0 rows; otherwise the table and count are the legacy activity's |
| LegacyAvailability.LegacyTriggerRunOtherHuts | AzureFunctions/UpdateAvailabilityFunctions.cs:50-77 | rows of a hut not requested are left as they were |
| LegacyAvailability.LegacyUpdateAvailabilityHttpTriggered | AzureFunctions/UpdateAvailabilityFunctions.cs:50-77 | an empty list is a bad request; unparsable ids are skipped; the answer is the sum of rows written |
| LegacyAvailability.LegacyUpdatePieces | AzureFunctions/UpdateAvailabilityFunctions.cs:62-76 | the loop leaves the rows of the legacy trigger run over the parsed ids and returns its count of written rows |
| Dispatch.BatchedPlanCounts | FetchDataFunctions/UpdateAvailabilityFunctions.cs:104-137 | the batch plan's calls, fan-ins, timers and reporting calls, counted |
| Dispatch.BatchedPlanEnd | FetchDataFunctions/UpdateAvailabilityFunctions.cs:128-137 | the plan ends with the last batch's fan-in, then the report |
| Dispatch.BatchedPlanSpec | FetchDataFunctions/UpdateAvailabilityFunctions.cs:104-137 | every id is called once, in order, and awaited; |ids| div 10 one-minute timers; the report runs exactly once, last |
| Dispatch.BatchedOrchestrator | FetchDataFunctions/Functions/HuettenHoliday/HuettenHolidayUpdateAvailabilityFromProvider.cs:92-121 | the batching loop of both orchestrators builds the batch plan; the Hütten-Holiday one has no report |
| Dispatch.UnbatchedPlanSpec | AzureFunctions/UpdateAvailabilityFunctions.cs:89-101 | the unbatched plan calls and awaits the same ids, with no timer, one fan-in and the report last |
| Dispatch.UnbatchedOrchestrator | AzureFunctions/UpdateAvailabilityFunctions.cs:89-101 | the legacy orchestrator fans out all ids, fans in, reports |
| Dispatch.MaxHutIdSetting | FetchDataFunctions/UpdateHutsFunctions.cs:20-30 | a MAX_HUT_ID setting holding any 32-bit number yields that number; no setting yields 600 |
| Dispatch.StartHutId | FetchDataFunctions/UpdateHutsFunctions.cs:48 | the start id is the day of the week plus one, in 1..7 |
| Dispatch.SweepIds | FetchDataFunctions/UpdateHutsFunctions.cs:98-101 | the ids start, start+7, ... up to the maximum, all congruent to start mod 7 |
| Dispatch.SweepCoversOnce | FetchDataFunctions/UpdateHutsFunctions.cs:98-101 | over the seven start ids, each id 1..max is dispatched on exactly one day |
| Dispatch.SweepIncreasing | FetchDataFunctions/UpdateHutsFunctions.cs:98-101 | within one day the ids strictly increase |
| Dispatch.ResidueSweepOrchestrator | FetchDataFunctions/UpdateHutsFunctions.cs:86-107 | the orchestrator calls the activity for the sweep ids up to the configured maximum, then fans in |
| Dispatch.GenerationIds | AzureFunctions/UpdateHutsFunctions.cs:83-86 | one generation dispatches start .. start+99 |
| Dispatch.NextStart | AzureFunctions/UpdateHutsFunctions.cs:95-104 | the chain continues with start+100 exactly when that is at most 300 |
| Dispatch.ChainFromOne | AzureFunctions/UpdateHuts.cs:47-80 | started from 1 the chain dispatches 1..300, each once, in three generations |
| Dispatch.GenerationOrchestrator | AzureFunctions/UpdateHutsFunctions.cs:72-104 | one generation: 100 calls, the fan-in and the next start |
| Dispatch.ParsedIdsSpec | FetchDataFunctions/UpdateAvailabilityFunctions.cs:78-88 | each piece, in order, contributes its value exactly when it parses as an int, and nothing else |
| Dispatch.IdsOrZero | FetchDataFunctions/UpdateHutsFunctions.cs:73-81 | every piece is fetched, one that does not parse as id 0 |
| Dispatch.OffsetIdsSpec | FetchDataFunctions/Functions/HuettenHoliday/HuettenHolidayUpdateAvailabilityFromProvider.cs:40 | every piece parsed and shifted by 10000; one bad piece fails the whole list |
| Dispatch.IdListsDiffer | FetchDataFunctions/UpdateHutsFunctions.cs:75-81 | an unparsable piece still produces a call for id 0; a parsable one is dropped by neither rule |
| Dispatch.IdListRoundTrip | FetchDataFunctions/UpdateAvailabilityFunctions.cs:78-88 | a comma-joined list of decimal ids comes back as exactly those ids under all three rules |
| HuettenHolidayAvailability.CabinIdRoundTrip | FetchDataFunctions/Functions/HuettenHoliday/HuettenHolidayUpdateAvailabilityFromProvider.cs:131 | the offset and its inverse round-trip exactly for positive cabin ids, not for 0 and below |
| HuettenHolidayAvailability.FirstStartingWith | FetchDataFunctions/Functions/HuettenHoliday/HuettenHolidayUpdateAvailabilityFromProvider.cs:164-167 | the first header with the given prefix, and none exactly when no header has it |
| HuettenHolidayAvailability.CookiePairValue | FetchDataFunctions/Functions/HuettenHoliday/HuettenHolidayUpdateAvailabilityFromProvider.cs:164-167 | a "name=value; attributes" header yields its value (section 4.1.1 of RFC 6265) |
| HuettenHolidayAvailability.XsrfHeaderDecodes | FetchDataFunctions/Functions/HuettenHoliday/HuettenHolidayUpdateAvailabilityFromProvider.cs:196 | every "%3D" of the token decodes to "=", and text without a percent sign is kept |
| HuettenHolidayAvailability.LeastOf | FetchDataFunctions/Functions/HuettenHoliday/HuettenHolidayUpdateAvailabilityFromProvider.cs:216-218 | the "first" stored row is the row of the least non-sentinel category |
| HuettenHolidayAvailability.ApplyDate | FetchDataFunctions/Functions/HuettenHoliday/HuettenHolidayUpdateAvailabilityFromProvider.cs:214-251 | with no non-sentinel row a "Zimmer" row is inserted, else only the first row is updated; one row written, none deleted; free = booked sum |
| HuettenHolidayAvailability.ApplyDateIdempotent | FetchDataFunctions/Functions/HuettenHoliday/HuettenHolidayUpdateAvailabilityFromProvider.cs:214-251 | applying a date twice is applying it once |
| HuettenHolidayAvailability.ApplyDates | FetchDataFunctions/Functions/HuettenHoliday/HuettenHolidayUpdateAvailabilityFromProvider.cs:214-252 | one record per date, in order: the i-th new record is on the i-th date, with its booked sum as free places, its total and the run's time; earlier records are kept |
| HuettenHolidayAvailability.MonthsAfterStop | FetchDataFunctions/Functions/HuettenHoliday/HuettenHolidayUpdateAvailabilityFromProvider.cs:176-212 | after a stop or failure later replies change nothing and earlier writes stay |
| HuettenHolidayAvailability.MonthsAsked | FetchDataFunctions/Functions/HuettenHoliday/HuettenHolidayUpdateAvailabilityFromProvider.cs:176-212 | a month is requested for every reply up to the first that stops or fails |
| HuettenHolidayAvailability.ApplyDatesFrame | FetchDataFunctions/Functions/HuettenHoliday/HuettenHolidayUpdateAvailabilityFromProvider.cs:214-254 | other huts' and dates' rows are untouched and no row is deleted |
| HuettenHolidayAvailability.ActivityFrame | FetchDataFunctions/Functions/HuettenHoliday/HuettenHolidayUpdateAvailabilityFromProvider.cs:126-265 | the activity writes only its own hut's rows and deletes none |
| HuettenHolidayAvailability.ApplyDateResult | FetchDataFunctions/Functions/HuettenHoliday/HuettenHolidayUpdateAvailabilityFromProvider.cs:216-251 | one date's row written in place, against the date specification |
| HuettenHolidayAvailability.ApplyMonth | FetchDataFunctions/Functions/HuettenHoliday/HuettenHolidayUpdateAvailabilityFromProvider.cs:214-254 | the dates of a month in place, each record appended |
| HuettenHolidayAvailability.UpdateAvailabilityActivity | FetchDataFunctions/Functions/HuettenHoliday/HuettenHolidayUpdateAvailabilityFromProvider.cs:126-265 | missing hut, failed first GET or missing cookie gives null and no write; otherwise the activity specification's table and records |
| HuettenHolidayAvailability.FetchMonths | FetchDataFunctions/Functions/HuettenHoliday/HuettenHolidayUpdateAvailabilityFromProvider.cs:176-258 | the month loop writes and returns what the month fold gives; a failed or thrown reply stops it, a thrown one fails the activity |
| HuettenHolidayAvailability.HttpTriggeredRejects | FetchDataFunctions/Functions/HuettenHoliday/HuettenHolidayUpdateAvailabilityFromProvider.cs:35-59 | the answer is 500 exactly when the hutId parameter is missing or some piece is not a 32-bit number, and then nothing is written |
| HuettenHolidayAvailability.HttpTriggeredRuns | FetchDataFunctions/Functions/HuettenHoliday/HuettenHolidayUpdateAvailabilityFromProvider.cs:35-59 | when every piece parses, the pieces plus 10000 are run in order; 404 exactly when the run returns no record, else the records |
| HuettenHolidayAvailability.HttpTriggeredIds | FetchDataFunctions/Functions/HuettenHoliday/HuettenHolidayUpdateAvailabilityFromProvider.cs:35-59 | a list of decimal cabin ids updates exactly the huts stored under those ids plus 10000 |
| Country.GetCountry | FetchDataFunctions/Helpers.cs:129-167 | first matching rule: Swiss, then South Tyrol, Austrian, German prefixes, then the locale; always one of five answers |
| Country.AnyNameOrNonEmpty | AzureFunctions/Helpers.cs:73-77 | the older copies' test inside the Any lambda equals the newer test over a non-empty list |
| Country.GetCountryEnglish | AzureFunctions/Helpers.cs:71-109 | the English copies: same precedence, "Germany/Austria" for de_DE or no locale |
| Country.EnglishIsTranslation | AzureFunctions/UpdateHutHelpers.cs:53-91 | the copies differ only in the language of the answer |
| Country.SwissFirst | FetchDataFunctions/Helpers.cs:131-135 | a Swiss marker wins over every later rule |
| HutParsing.WebsiteWithScheme | FetchDataFunctions/Helpers.cs:83-90 | an empty link leaves the website unset; a link not starting with "http" in lower case gets "http://" |
| HutParsing.WebsiteWithSchemeIdempotent | FetchDataFunctions/Helpers.cs:83-90 | prefixing twice is prefixing once |
| HutParsing.CleanCoordinatesOfLabelled | AzureFunctions/Helpers.cs:46-47 | the label in front of collapsed coordinates is removed and nothing else changes |
| HutParsing.NamePart | FetchDataFunctions/Helpers.cs:183-186 | the search uses the name before the first comma |
| HutParsing.Pick | FetchDataFunctions/Helpers.cs:196-206 | with several hits, the first alpine hut or restaurant, else the first hit |
| HutParsing.RemoveTla | FetchDataFunctions/Helpers.cs:225 | every " " followed by 2 to 4 capitals is removed, longest match first, left to right |
| HutParsing.RemoveTlaShortens | FetchDataFunctions/Helpers.cs:223-225 | the rewrite shortens a name iff it has a match, and is the identity otherwise |
| HutParsing.SearchHutCoordinates | FetchDataFunctions/Helpers.cs:175-249 | every answer lies in the box of longitudes 4..17 and latitudes 44..53 |
| HutParsing.SearchFirstHit | FetchDataFunctions/Helpers.cs:183-219 | a single hit in the box for the name before the comma is the answer |
| HutParsing.SearchFailureStops | FetchDataFunctions/Helpers.cs:244-248 | a failed request ends the search |
| HutParsing.SearchTlaFirst | FetchDataFunctions/Helpers.cs:223-242 | the abbreviation rewrite is tried before either "hütte" rewrite |
| HutParsing.ParseHutInformation | FetchDataFunctions/Helpers.cs:58-127 | name, website, enabled flag; only a new hut is geocoded; a search hit sets position and region, and the country is the reverse lookup's or else GetCountry |
| HutParsing.ParseLegacyHutInformation | AzureFunctions/Helpers.cs:32-69 | a hut of exactly name, enabled flag, cleaned coordinates, English country and timestamp |
| HutParsing.LegacyParseFields | AzureFunctions/UpdateHutHelpers.cs:14-51 | the older parse sets only those five columns, and its country is the newer classifier's in English |
| HutParsing.ParseHutInfoFromHtml | AzFunctions/ParseHutInfoFromHtml.cs:20-57 | a bad request without an info container; otherwise name, enabled flag, coordinates and country |
| HutParsing.HutInfoAgreesWithLegacyParse | AzFunctions/ParseHutInfoFromHtml.cs:37-56 | the HTTP parser and the older hut parser report the same four facts |
| HutInfo.CoordinatesRoundTrip | FetchDataFunctions/Models/HutInfoV2.cs:27-45 | "lat,lon" and "lat/lon" give the two parsed halves whatever surrounds them |
| HutInfo.ThreePiecesAreNull | FetchDataFunctions/Models/HutInfoV2.cs:32-43 | with three pieces both getters are null |
| HutInfo.AltitudeOfDottedDigits | FetchDataFunctions/Models/HutInfoV2.cs:47-60 | a thousands dot and the unit " m" are dropped: "a.b m" for digit runs a and b is the number a followed by b, when it fits in 32 bits |
| HutInfo.AltitudeOfDigits | FetchDataFunctions/Models/HutInfoV2.cs:47-60 | "d m" for a digit run d is the number d, when it fits in 32 bits |
| HutInfo.HutWebsiteNormalized | FetchDataFunctions/Models/HutInfoV2.cs:62-75 | null for blank input; otherwise trimmed, lower case, with a scheme |
| HutInfo.HutWebsiteNormalizedEnds | FetchDataFunctions/Models/HutInfoV2.cs:69 | a normalised website has no white space at either end |
| HutInfo.HutWebsiteNormalizedIdempotent | FetchDataFunctions/Models/HutInfoV2.cs:69-73 | normalising twice is normalising once |
| HutInfo.CountryNormalized | FetchDataFunctions/Models/HutInfoV2.cs:77-93 | AT, CH, DE and IT become Österreich, Schweiz, Deutschland and Italien; other codes pass through; blank gives null |
| HutInfo.CountryNormalizedIdempotent | FetchDataFunctions/Models/HutInfoV2.cs:77-93 | normalising a normalised country changes nothing |
| HutInfo.StripSchemes | FetchDataFunctions/Models/Huts.cs:36-37 | every scheme, a following "www" and the dots after it are removed |
| HutInfo.ShortHutWebsite | FetchDataFunctions/Models/Huts.cs:32-43 | null for a null or empty website, otherwise the stripped lower-case form |
| HutInfo.ShortHutWebsiteIsLower | FetchDataFunctions/Models/Huts.cs:37 | the short form is always lower case |
| HutInfo.StripSchemesNoScheme | FetchDataFunctions/Models/Huts.cs:36-37 | a string without a scheme is left as it is |
| HutInfo.ShortOfHttpsWww | FetchDataFunctions/Models/Huts.cs:32-43 | the short form of "https://www." followed by a lower-case host is the host |
| HutInfo.ShortOfNormalized | FetchDataFunctions/Models/Huts.cs:32-43 | for a lower-case host the short form undoes the normalised website |
| UpdateHuts.Regeocode | FetchDataFunctions/UpdateHutsFunctions.cs:167-179 | only a hut missing position or country is geocoded; no hit keeps the parsed hut; a hit sets position, region and the found country or else the parsed one |
| UpdateHuts.MergeExisting | FetchDataFunctions/UpdateHutsFunctions.cs:180-192 | name, enabled, link and website overwritten; position, country and region only by non-null; Activated on disabled to enabled |
| UpdateHuts.HutActivity | FetchDataFunctions/UpdateHutsFunctions.cs:110-221 | not found, excluded or null parse writes nothing; a new hut gets Added and Activated stamps; a stored one is merged |
| UpdateHuts.GetHutFromProviderActivity | FetchDataFunctions/UpdateHutsFunctions.cs:110-221 | changes at most the hut under the id, only when it returns that hut, as the activity specification says |
| UpdateHuts.ManuallyEditedIgnored | FetchDataFunctions/UpdateHutsFunctions.cs:167-192 | ManuallyEdited is never consulted |
| UpdateHuts.LocatedHutNotGeocoded | FetchDataFunctions/UpdateHutsFunctions.cs:167-179 | a stored hut with position and country is not geocoded |
| UpdateHuts.UnlocatedHutTakesSearchHit | FetchDataFunctions/UpdateHutsFunctions.cs:167-179 | a stored hut without a position takes the first hit, which lies in the box |
| UpdateHuts.TriggerRunKeepsIds | FetchDataFunctions/UpdateHutsFunctions.cs:59-84 | every hut the trigger writes is stored under its fetched id |
| UpdateHuts.UpdateHutHttpTriggered | FetchDataFunctions/UpdateHutsFunctions.cs:59-84 | an empty list is a bad request; every piece is fetched in turn, an unparsable one as id 0 |
| UpdateHuts.FetchPieces | FetchDataFunctions/UpdateHutsFunctions.cs:73-81 | the loop asks for exactly the ids-or-zero of the pieces, in order, and leaves the huts and results of the trigger run over them |
| UpdateHuts.UpdateStoredHut | FetchDataFunctions/UpdateHutsFunctions.cs:164-192 | the stored hut, re-geocoded only when it lacks a position or country, then merged with the page |
| HuettenHolidayHuts.CabinWebsite | FetchDataFunctions/Functions/HuettenHoliday/HuettenHolidayGetHutsFromProvider.cs:80-86 | a website without "http://" or "https://" gets "https://" |
| HuettenHolidayHuts.CabinWebsiteIdempotent | FetchDataFunctions/Functions/HuettenHoliday/HuettenHolidayGetHutFromProvider.cs:80-86 | prefixing twice is prefixing once |
| HuettenHolidayHuts.TruncateToInt | FetchDataFunctions/Functions/HuettenHoliday/HuettenHolidayGetHutsFromProvider.cs:112 | the altitude cast cuts toward zero |
| HuettenHolidayHuts.CabinCountry | FetchDataFunctions/Functions/HuettenHoliday/HuettenHolidayGetHutsFromProvider.cs:90-95 | the provider's German name when non-empty, else the geocoded country |
| HuettenHolidayHuts.NewCabinHut | FetchDataFunctions/Functions/HuettenHoliday/HuettenHolidayGetHutsFromProvider.cs:99-119 | a new hut: source "HuettenHoliday", enabled, slug link, Added and LastUpdated now, id + 10000 |
| HuettenHolidayHuts.UpdatedCabinHut | FetchDataFunctions/Functions/HuettenHoliday/HuettenHolidayGetHutsFromProvider.cs:131-140 | every mapped field overwritten, null positions included, enabled set; the current import also overwrites the region |
| HuettenHolidayHuts.CabinStep | FetchDataFunctions/Functions/HuettenHoliday/HuettenHolidayGetHutsFromProvider.cs:69-144 | deleted cabins skipped, manually edited huts untouched, an unknown cabin inserted as a new hut and a known one overwritten, each appended to the result |
| HuettenHolidayHuts.ProcessedPages | FetchDataFunctions/Functions/HuettenHoliday/HuettenHolidayGetHutsFromProvider.cs:56-149 | paging stops at a null reply and after a page without a next one |
| HuettenHolidayHuts.ProcessedPagesAreReplies | FetchDataFunctions/Functions/HuettenHoliday/HuettenHolidayGetHutFromProvider.cs:56-138 | the processed pages are the replies to the requests made, in order |
| HuettenHolidayHuts.ImportCabin | FetchDataFunctions/Functions/HuettenHoliday/HuettenHolidayGetHutsFromProvider.cs:69-144 | one cabin against the database, as the cabin step says |
| HuettenHolidayHuts.ImportPage | FetchDataFunctions/Functions/HuettenHoliday/HuettenHolidayGetHutsFromProvider.cs:69-145 | the cabins of a page, in order |
| HuettenHolidayHuts.UpdateHutsFromProvider | FetchDataFunctions/Functions/HuettenHoliday/HuettenHolidayGetHutsFromProvider.cs:49-158 | the paging loop and the cabins of every processed page, against the specification |
| HuettenHolidayHuts.ManuallyEditedUntouched | FetchDataFunctions/Functions/HuettenHoliday/HuettenHolidayGetHutsFromProvider.cs:123-127 | a hut edited by hand is neither changed nor returned |
| HuettenHolidayHuts.ResultFromLiveCabins | FetchDataFunctions/Functions/HuettenHoliday/HuettenHolidayGetHutsFromProvider.cs:71-77 | every returned hut is stored under a live cabin's id plus 10000 |
| HuettenHolidayHuts.DeletedCabinsIgnored | FetchDataFunctions/Functions/HuettenHoliday/HuettenHolidayGetHutsFromProvider.cs:71-75 | deleted cabins change nothing |
| HuettenHolidayHuts.HuettenHolidayUpdateHutHttpTriggered | FetchDataFunctions/Functions/HuettenHoliday/HuettenHolidayGetHutsFromProvider.cs:30-46 | a missing hutId parameter or a bad piece answers 500 with nothing written; otherwise the import runs and the answer holds only huts whose id was asked for |
| LegacyHuts.ProviderLink | AzureFunctions/Helpers.cs:16 | the base address followed by the decimal id |
| LegacyHuts.LegacyRegeocode | AzureFunctions/UpdateHutsFunctions.cs:137-148 | geocoded only when the name changed or country or region is null; no hit keeps the parsed hut; a hit sets position and region, and the found country or else the parsed one |
| LegacyHuts.LegacyMerge | AzureFunctions/UpdateHutsFunctions.cs:150-156 | name and enabled overwritten; position, country and region only by non-null; everything else stays |
| LegacyHuts.LegacyHutActivity | AzureFunctions/UpdateHutsFunctions.cs:108-184 | an empty or not-found page, or a failed parse, writes nothing; existing huts merged, new ones inserted with the link |
| LegacyHuts.LegacyActivityKeepsIds | AzureFunctions/UpdateHutsFunctions.cs:108-184 | every stored hut stays under its own id |
| LegacyHuts.LegacyGeocodingOnlyWhenNeeded | AzureFunctions/UpdateHutsFunctions.cs:137 | with the name unchanged and country and region on file, the geocoder is not consulted |
| LegacyHuts.LegacyRenamedHutTakesSearchHit | AzureFunctions/UpdateHutsFunctions.cs:137-148 | a renamed hut the geocoder finds gets the geocoder's position |
| LegacyHuts.LegacyGetHutFromProviderActivity | AzureFunctions/UpdateHutsFunctions.cs:108-184 | the activity against the database, as the specification says |
| LegacyHuts.LegacyTriggerRunKeepsIds | AzureFunctions/UpdateHutsFunctions.cs:43-69 | however many ids run, every stored hut stays under its own id |
| LegacyHuts.LegacyUpdateHutHttpTriggered | AzureFunctions/UpdateHutsFunctions.cs:43-69 | an empty list is a bad request; every piece fetched, an unparsable one as id 0 |
| LegacyHuts.LegacyFetchPieces | AzureFunctions/UpdateHutsFunctions.cs:57-67 | the loop asks for exactly the ids-or-zero of the pieces, in order, and leaves the huts and results of the legacy trigger run |
| LegacyHuts.Upserted | AzureFunctions/UpdateHutsFunctions.cs:197-206 | KeepNonEmpty replaces text only by non-empty and values only by non-null; Overwrite replaces its six columns |
| LegacyHuts.UpsertedIdempotent | AzureFunctions/UpdateHuts.cs:134-139 | upserting the same hut twice is upserting it once, for the overwrite rule here and the keep-non-empty rule of AzureFunctions/UpdateHutsFunctions.cs:197-206 |
| LegacyHuts.UpsertAllKeys | AzureFunctions/UpdateHutsFunctions.cs:193-214 | afterwards exactly the stored and listed ids are stored; other huts untouched |
| LegacyHuts.UpsertAllKeepsIds | AzureFunctions/UpdateHuts.cs:128-146 | every hut stays under its own id |
| LegacyHuts.KeepNonEmptyNeverBlanks | AzureFunctions/UpdateHutsFunctions.cs:197-206 | a stored non-empty name, country or region is never lost |
| LegacyHuts.OverwriteLastWins | AzureFunctions/UpdateHuts.cs:134-139 | the last listed hut with an id decides its overwritten columns |
| LegacyHuts.UpsertHuts | AzureFunctions/UpdateHuts.cs:120-157 | a failed save returns -1 and writes nothing; otherwise the upsert specification's table and the number of ids |
| LegacyHuts.FetchHut | AzureFunctions/UpdateHuts.cs:85-117 | always carries the id; the hut is null on not-found or failure, otherwise parsed with the provider link |
| LegacyHuts.FoundAndNotFoundInOrder | AzureFunctions/UpdateHuts.cs:57-59 | each task result, in order, goes to the found huts when it holds a hut and to the not-found ids otherwise |
| LegacyHuts.FoundAndNotFoundPartition | AzureFunctions/UpdateHuts.cs:57-63 | every answer lands in exactly one of the two lists |
| LegacyHuts.FoundHutsOfGeneration | AzureFunctions/UpdateHuts.cs:47-63 | every found hut is listed under an id of that generation |
| LegacyHuts.FanOut | AzureFunctions/UpdateHuts.cs:49-53 | one activity per id of the generation, start to start + 99, in order |
| LegacyHuts.UpdateHutsGeneration | AzureFunctions/UpdateHuts.cs:38-81 | 100 activities, the found huts upserted by overwriting, the missing ids listed, the next start while at most 300 |
| AzParse.FirstOpenSpec | AzFunctions/ParseHutAvailability.cs:48-51 | the first open record is the first record that is not closed |
| AzParse.OpenRoomsSpec | AzFunctions/ParseHutAvailability.cs:38-47 | each record, in order, becomes a room exactly when it is open; none iff all are closed |
| AzParse.AzDayOfSpec | AzFunctions/ParseHutAvailability.cs:48-63 | a day is answered iff it has an open record, with the first one's date and its open rooms |
| AzParse.ParsedAzDaysAppend | AzFunctions/ParseHutAvailability.cs:34-63 | parsing keeps reply order |
| AzParse.LanguageIsFirstSet | AzFunctions/ParseHutAvailability.cs:29-57 | the language is the first record's that is not "", closed rooms included |
| AzParse.LanguageSticks | AzFunctions/ParseHutAvailability.cs:54-57 | a language other than "" is never replaced |
| AzParse.ParseHutAvailabilityReply | AzFunctions/ParseHutAvailability.cs:20-81 | a missing body or an unparsable first open date is a bad request with no partial result |
| AzParse.ParseHutAvailability | AzFunctions/ParseHutAvailability.cs:20-81 | the nested loops compute the specification's reply |
| WebsiteAvailability.DistinctKeys | WebsiteBackendFunctions/WebsiteFunctions/GetHutAvailabilityFunction.cs:44 | the group keys: each key of the rows once |
| WebsiteAvailability.DistinctKeysSpec | WebsiteBackendFunctions/WebsiteFunctions/GetHutAvailabilityFunction.cs:44 | keys come in order of first appearance: the keys of a prefix are a prefix, and an earlier key appears in an earlier row |
| WebsiteAvailability.DistinctKeysFromRows | WebsiteBackendFunctions/WebsiteFunctions/GetHutAvailabilityFunction.cs:44 | every group key is the key of some row |
| WebsiteAvailability.ShownRoomsSpec | WebsiteBackendFunctions/WebsiteFunctions/GetHutAvailabilityFunction.cs:54-60 | each row, in order, is shown exactly when its total is positive, so the 0/0 row never is |
| WebsiteAvailability.Summarize | WebsiteBackendFunctions/WebsiteFunctions/GetHutAvailabilityFunction.cs:48-60 | sums of free and total, closed iff the total is 0, exactly the shown rooms of the group, first row's timestamp |
| WebsiteAvailability.ClosedIffNoRoomShown | WebsiteBackendFunctions/WebsiteFunctions/GetHutAvailabilityFunction.cs:53-60 | with no negative totals a view is closed iff it shows no room |
| WebsiteAvailability.GroupSumsAddUp | WebsiteBackendFunctions/WebsiteFunctions/GetAllAvailabilityOnDateFunction.cs:41-50 | the per-group sums add up to the sum over all rows |
| WebsiteAvailability.ViewsOf | WebsiteBackendFunctions/WebsiteFunctions/GetHutAvailabilityFunction.cs:44-63 | the loop gives one view per date, in the order of the dates |
| WebsiteAvailability.GetHutAvailability | WebsiteBackendFunctions/WebsiteFunctions/GetHutAvailabilityFunction.cs:42-67 | one view per distinct date, in order of first appearance |
| WebsiteAvailability.OneViewPerDate | WebsiteBackendFunctions/WebsiteFunctions/GetHutAvailabilityFunction.cs:44-63 | each date of the rows gets exactly one view, and each view is of a date of the rows |
| WebsiteAvailability.SortedRowsGiveAscendingViews | WebsiteBackendFunctions/WebsiteFunctions/GetHutAvailabilityFunction.cs:34-35 | rows sorted by date give views in strictly ascending date order |
| WebsiteAvailability.HutAvailabilityTotals | WebsiteBackendFunctions/WebsiteFunctions/GetHutAvailabilityFunction.cs:51-52 | the views' free and total beds add up to the rows' |
| WebsiteAvailability.OnDateSpec | WebsiteBackendFunctions/WebsiteFunctions/GetAllAvailabilityOnDateFunction.cs:34 | each row, in order, is kept exactly when it is of the requested date |
| WebsiteAvailability.AllAvailabilityOnDate | WebsiteBackendFunctions/WebsiteFunctions/GetAllAvailabilityOnDateFunction.cs:28-61 | one view per hut of the date, in order, each carrying the requested date |
| WebsiteAvailability.AllAvailabilityOnDateTotals | WebsiteBackendFunctions/WebsiteFunctions/GetAllAvailabilityOnDateFunction.cs:41-58 | each hut gets one view, and the sums add up to the date's totals |
| WebsiteAdmin.AdminUpdated | WebsiteBackendFunctions/WebsiteFunctions/Admin/UpdateHutFunction.cs:71-75 | the request's hut with Added, Activated and Source kept, ManuallyEdited set and LastUpdated now |
| WebsiteAdmin.AdminUpdateReply | WebsiteBackendFunctions/WebsiteFunctions/Admin/UpdateHutFunction.cs:28-85 | 404 iff the id is unknown; 400 iff the body is null or its id differs; otherwise 200 with the merged hut |
| WebsiteAdmin.UpdateHut | WebsiteBackendFunctions/WebsiteFunctions/Admin/UpdateHutFunction.cs:78-84 | only a successful reply writes the hut |
| WebsiteAdmin.AdminUpdateIdempotent | WebsiteBackendFunctions/WebsiteFunctions/Admin/UpdateHutFunction.cs:71-75 | sending the same update twice is sending it once |
| WebsiteAdmin.AdminUpdateKeepsServerColumns | WebsiteBackendFunctions/WebsiteFunctions/Admin/UpdateHutFunction.cs:71-73 | Added, Activated and Source survive any request |
| WebsiteAdmin.EmailMatchesPattern | WebsiteBackendFunctions/Models/FreeBedUpdateSubscription.cs:9 | the matcher accepts exactly the addresses of the pattern |
| WebsiteAdmin.AcceptedHasOneAt | WebsiteBackendFunctions/Models/FreeBedUpdateSubscription.cs:9 | an accepted address holds exactly one '@' |
| WebsiteAdmin.DotAfterAtRejected | WebsiteBackendFunctions/Models/FreeBedUpdateSubscription.cs:9 | "a@.com" is refused |
| WebsiteAdmin.PlainAddressAccepted | WebsiteBackendFunctions/Models/FreeBedUpdateSubscription.cs:9 | "a@b.ch" is accepted |
| WebsiteAdmin.ValidationErrors | WebsiteBackendFunctions/Models/FreeBedUpdateSubscription.cs:8-16 | no errors iff the address is present, matches and has at most 100 characters, and the date is present |
| WebsiteAdmin.UpsertSubscriptionPlace | WebsiteBackendFunctions/WebsiteFunctions/CreateFreeBedNotificationSubscription.cs:58-62 | with no row of the same key the subscription is appended; otherwise the first such row is replaced in place |
| WebsiteAdmin.UpsertKeepsKeysUnique | WebsiteBackendFunctions/WebsiteFunctions/CreateFreeBedNotificationSubscription.cs:58-62 | on a table with one row per key, the upsert keeps one row per key, and that row is the new subscription |
| WebsiteAdmin.SubscriptionReply | WebsiteBackendFunctions/WebsiteFunctions/CreateFreeBedNotificationSubscription.cs:21-65 | missing or disabled hut: 400 without errors; a missing body: 500; failed validation: 400 with its errors; a past date refused; 200 exactly when all pass |
| WebsiteAdmin.CreateFreeBedNotificationSubscription | WebsiteBackendFunctions/WebsiteFunctions/CreateFreeBedNotificationSubscription.cs:21-65 | on success one row for the route's hut, not notified, is upserted; otherwise nothing is written |
| WebsiteAdmin.TodayAcceptedYesterdayRefused | WebsiteBackendFunctions/WebsiteFunctions/CreateFreeBedNotificationSubscription.cs:53-56 | a date of today is accepted; the day before is refused |
| Strings.CollapseWhitespaceCollapsed | AzureFunctions/Helpers.cs:46 | whitespace runs become single spaces between non-whitespace characters |
| Strings.CollapseWhitespaceFixed | AzureFunctions/Helpers.cs:46 | a collapsed string is left as it is |
| Strings.DigitsParse | FetchDataFunctions/Models/HutInfoV2.cs:58 | a bare run of digits parses to its value when that fits in 32 bits, and fails otherwise |
| Strings.Int32TryParse | FetchDataFunctions/UpdateAvailabilityFunctions.cs:80 | parses an optional sign and decimal digits with surrounding white space, within 32 bits |
| Strings.IntToStringRoundTrip | FetchDataFunctions/UpdateAvailabilityFunctions.cs:78-80 | printing an int and parsing it back gives the same int |
| Strings.SplitJoin | FetchDataFunctions/UpdateAvailabilityFunctions.cs:78 | splitting a join of separator-free pieces gives the pieces back |
| Strings.TrimIdempotent | FetchDataFunctions/Models/HutInfoV2.cs:69 | trimming twice is trimming once |

## Left out

- HTTP, HTML and JSON are inputs. Provider replies, Set-Cookie headers and page texts are parameters. The HtmlAgilityPack extraction arrives as a `HutPage` of found texts. A JSON body that does not deserialise is `None`.
- Geocoding, time and number parsing are abstract. The coordinate search (Nominatim) and the reverse lookup (Azure Maps) are functions passed in. So are `double.TryParse` and `DateTime.ParseExact`: raw records carry already-parsed days and reals. `int.TryParse` is modelled.
- The clock is a parameter. "Now" and "today" are integers passed in, so the UTC and local-time difference of `LastUpdated` is not modelled.
- One clock reading per run. The source reads `DateTime.UtcNow` again for each fetched window, month and date, and the local `DateTime.Today` for the subscription preload. The model uses one `now` and one `today` for the whole run, so a run that crosses midnight or a clock tick is not modelled.
- Case folding covers ASCII and the Latin-1 upper-case letters only. The source's `ToLowerInvariant`, `ToLower` and `InvariantCultureIgnoreCase` fold all of Unicode; names with other upper-case letters compare differently in the model.
- UpdateHuts.UpdateHutHttpTriggered: a `HutFetch` always holds a page. A failed GET, or any exception during the fetch, makes the source return null (`FetchDataFunctions/UpdateHutsFunctions.cs:213-218`); the model cannot express that outcome.
- WebsiteAvailability.Summarize: the view's `FreeRoom` and `TotalRoom` are nullable in the source. Its `Sum` skips nulls and `(int)a.FreeRoom` throws on one (`WebsiteBackendFunctions/WebsiteFunctions/GetHutAvailabilityFunction.cs:51`, `:58`); the model's rows always hold both counts.
- UpdateAvailability.UpdateHutAvailability: the store never fails to save. In the source a `DbUpdateException` from a day's `SaveChangesAsync` (`FetchDataFunctions/UpdateAvailabilityFunctions.cs:332`, `:341-345`) ends the run with the rows counted so far. That day's writes and `Notified` flags are then lost, but its messages are already in the result, so those e-mails go out again on the next run. The model does not capture this partial outcome.
- LegacyAvailability.LegacyUpdateHutAvailability: the store never fails to save. In the source an exception from `SaveChangesAsync` (`AzureFunctions/UpdateAvailabilityFunctions.cs:194`, `:200-203`) ends the run and returns the count of the days saved before it; the model does not capture this partial count.
- HuettenHolidayAvailability.UpdateAvailabilityActivity: the store never fails to save. In the source an exception from a month's `SaveChangesAsync` (`FetchDataFunctions/Functions/HuettenHoliday/HuettenHolidayUpdateAvailabilityFromProvider.cs:254`, `:260-264`) makes the activity return null while earlier months stay saved; the model does not capture this outcome.
- Entity Framework is modelled as immediate writes. A query sees earlier adds and removes of the same run. In the availability activities this differs from EF when one day lists a bed category twice, or one month lists a date twice.
- HuettenHolidayHuts.CabinStep: a new cabin listed twice in one page is inserted, then overwritten. In the source the lookup does not see the unsaved first add, so the second `dbContext.Add` throws and the run returns null (`FetchDataFunctions/Functions/HuettenHoliday/HuettenHolidayGetHutsFromProvider.cs:97`, `:119`, `:154-157`). A stored hut listed twice is updated twice and appears twice in the returned list, in the model as in the source.
- `AzureFunctions/UpdateHutsFunctions.cs` calls a four-argument `ParseHutInformation`, `SearchHutCoordinates` and `GetCountryAndRegion`. Those are not part of this model and are taken as parameters. The three-argument copies in `AzureFunctions/Helpers.cs` are modelled.
- The SQL output binding of the sign-up is modelled as an upsert on (hut, date, email). The stored procedures, reporting activities, SendGrid delivery and the cleanup of old subscriptions are left out.
- Durable Functions are modelled as plans. Replay, real concurrency, retries and `ContinueAsNew` are not modelled: a plan is the event sequence one execution issues.
- HutParsing.SearchHutCoordinates: the recursion over the rewritten names is bounded by a fuel argument. No rewrite sequence longer than that bound is modelled.
- HuettenHolidayHuts.UpdateHutsFromProvider: pagination is modelled over a finite sequence of replies, and the caller must show that paging ends within it. A provider that never ends paging is not modelled.
- HuettenHolidayHuts.UpdateHutsFromProvider: an exception in the middle of a run would leave earlier pages saved and return null. It is not modelled; only the completed run is.
- HuettenHolidayAvailability.LeastOf: the query's "first" non-sentinel row has no ORDER BY. The model fixes it as the row of the smallest bed category.
- Integer overflow is not modelled. `int.Parse(i) + 10000` in the Hütten-Holiday triggers, and the altitude cast, are taken on unbounded integers.
- A null `cabin.country`, a missing phone span or a missing coordinate span would throw. Inputs are taken as present.
- LegacyHuts.UpsertHuts: Entity Framework would throw when one list adds the same new id twice. The model applies the list in order and counts the distinct ids.
- LegacyHuts.UpsertHuts: database exceptions are modelled only as a flag saying that saving fails.
- WebsiteAdmin.UpdateHut: the 500 path for an unexpected exception is not modelled. No statement on the success path throws once the body has been read.
- The legacy availability model (`AzureFunctions/Models/HutAvailabiltyModel.cs`) is read only through its non-nullable ids.
- The WebUI and dashboard pages, RedirectOldUi and the SQL-only endpoints (GetAllHuts, GetHutById, GetAllBedCategories, DeleteHut) are left out. So are the retry policies and the SQL token providers.
