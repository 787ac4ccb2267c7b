# Wayline reading, job-state store and value types of the DJI Cloud API demo

This Dafny project models the core of the wayline (flight-plan) handling in
the DJI Cloud API demo server, and proves properties of it.

- **Reading a wayline archive** (`WaylineService`). A wayline file is a
  KMZ, which is a ZIP archive. The reader scans the ZIP entries for the
  template document at `FILE_DIR_FIRST/FILE_DIR_SECOND_TEMPLATE`. It then
  resolves the drone, payload and template types named in the document,
  refuses every template type but waypoint, and collects the placemarks'
  points. The points go into a `TreeMap` keyed by waypoint index, and the
  flight path is that map's values in index order. Checked I/O and parse
  exceptions turn into a null result. Runtime exceptions propagate. A
  failure to close the source stream becomes a `WaylineReadException`
  when the read itself returned; when the read throws, its exception wins.
- **The job-state store** (`WaylineRedisServiceImpl`). For each dock it
  keeps a running, a paused and a blocked slot, each with a TTL. It keeps
  conditional jobs keyed by job id, with a TTL derived from the job's end
  time. It keeps one sorted set of prepared jobs, scored by begin time in
  epoch milliseconds. The Redis helper `RedisOpsUtils` is modelled as an
  in-memory class (`RedisOps.RedisStore`): a key/value map whose entries
  carry their TTL, and a map from sorted-set names to member/score maps.
- **Three value types.** `TakeoffStatusEnum` (six statuses and a
  case-sensitive `find`), `WaylineRcLostActionEnum` (serialised as its
  ordinal) and the flight-authorisation `Title` (at most 255 UTF-16 code
  units).

How the model represents things:

- Java `null` is `Option.None`.
- Exceptions are the `Failure` arm of a `Result`. The reader's exceptions are the `ReadException` datatype.
- The ZIP and XML libraries are represented by what they deliver.
  - `Archive` holds the entries in stream order, plus whether the stream
    throws after the last entry and whether closing it throws.
  - `KmlDocument` holds the nodes the reader queries.
- `KmzFileProperties` constants, the `DroneType`, `PayloadType`,
  `PayloadSubType` and `WaylineTemplateTypeEnum` lookups, and
  `Double.parseDouble` are fields of a `Catalog` record. The lookups are
  partial maps.
- `RedisConst` values and the zone conversion to epoch milliseconds are
  fields of the service class.
- `LocalDateTime.now()` is a parameter.

Where the code and its description differ, the model follows the code:

- `findWaylineTemplateFile` announces a `FileNotFoundException` for a
  missing template. It never throws one: `Optional.of(null)` throws a
  `NullPointerException` first, or the stream throws an `IOException`. See
  `MissingTemplate` and `FileNotFoundUnreachable`.
- The placemark query runs over the whole document, not just the first
  folder. See `EveryFolderContributes` and `SuccessfulRead`.

## Model

| member | source | states |
|---|---|---|
| JavaStrings.Fields | src/main/java/com/dji/sample/wayline/domain/service/WaylineService.java:124-125 | the comma fields of a string: at least one, none containing the separator, and joined with the separator they give the string back |
| JavaStrings.StripTrailingEmpty | src/main/java/com/dji/sample/wayline/domain/service/WaylineService.java:124-125 | `split` with limit 0 drops the trailing empty fields: the result is a prefix, it ends in a non-empty field, and only empty fields were dropped |
| JavaStrings.Split | src/main/java/com/dji/sample/wayline/domain/service/WaylineService.java:124-125 | `coordinates.split(",")`: a string without a comma is its own single field, and no field holds a comma |
| JavaStrings.FieldsWithoutSeparator | src/main/java/com/dji/sample/wayline/domain/service/WaylineService.java:124 | a string without the separator is one field |
| JavaStrings.FieldsAfterFirst | src/main/java/com/dji/sample/wayline/domain/service/WaylineService.java:124-125 | the first field is the text before the first separator, and the rest are the fields after it |
| JavaStrings.FieldsOfJoin | src/main/java/com/dji/sample/wayline/domain/service/WaylineService.java:124-125 | splitting a join of separator-free parts gives the parts back |
| JavaStrings.SplitLeadingFields | src/main/java/com/dji/sample/wayline/domain/service/WaylineService.java:124-125 | `lon,lat[,...]` with a non-empty `lat` splits with `lon` at index 0 and `lat` at index 1 |
| JavaStrings.ContainsText | src/main/java/com/dji/sample/wayline/service/impl/WaylineRedisServiceImpl.java:74 | true exactly when some character is not Java whitespace |
| JavaStrings.HasText | src/main/java/com/dji/sample/wayline/service/impl/WaylineRedisServiceImpl.java:74 | `StringUtils.hasText`: false for null, and otherwise true exactly when some character is not whitespace |
| JavaStrings.ValueOf | src/main/java/com/dji/sample/wayline/service/impl/WaylineRedisServiceImpl.java:98 | definition, no property of its own: string concatenation writes null as "null" and any other string as itself |
| JavaStrings.Utf16Length | src/main/java/com/dji/sample/flightauthorization/domain/value/Title.java:31-33 | `length()` lies between the number of characters and twice it, and equals the number of characters exactly when all of them are in the Basic Multilingual Plane |
| TakeoffStatus.FindAmong | src/main/java/com/dji/sample/control/model/enums/TakeoffStatusEnum.java:45 | the stream filter returns a constant whose status equals the argument, or nothing when no constant's status does |
| TakeoffStatus.Find | src/main/java/com/dji/sample/control/model/enums/TakeoffStatusEnum.java:43-46 | a found constant reports exactly the given status; `NoSuchElementException` is thrown exactly when no constant reports it |
| TakeoffStatus.ValuesIndex | src/main/java/com/dji/sample/control/model/enums/TakeoffStatusEnum.java:14-24 | every constant occurs in `values()` |
| TakeoffStatus.StatusesDistinct | src/main/java/com/dji/sample/control/model/enums/TakeoffStatusEnum.java:14-24 | there are six constants, pairwise distinct, and no two report the same status string |
| TakeoffStatus.FindStatus | src/main/java/com/dji/sample/control/model/enums/TakeoffStatusEnum.java:35-37 | `find(e.getStatus())` is `e` for every constant |
| TakeoffStatus.StatusIsLowerCase | src/main/java/com/dji/sample/control/model/enums/TakeoffStatusEnum.java:14-24 | every status string is made of lower-case letters and underscores |
| TakeoffStatus.MessageIsSentence | src/main/java/com/dji/sample/control/model/enums/TakeoffStatusEnum.java:14-41 | `getMessage` returns the constant's second constructor argument: a sentence that starts with "The drone " and ends with a full stop |
| TakeoffStatus.MessagesDistinct | src/main/java/com/dji/sample/control/model/enums/TakeoffStatusEnum.java:14-41 | no two constants return the same message |
| TakeoffStatus.FindIsCaseSensitive | src/main/java/com/dji/sample/control/model/enums/TakeoffStatusEnum.java:45 | every status is lower case: a string with an ASCII upper-case letter A-Z anywhere fails, and so does null |
| RcLostAction.Ordinal | src/main/java/com/dji/sample/manage/model/enums/WaylineRcLostActionEnum.java:15 | a constant's ordinal is its position in `values()` |
| RcLostAction.GetVal | src/main/java/com/dji/sample/manage/model/enums/WaylineRcLostActionEnum.java:17-20 | the JSON value is the position in `values()` |
| RcLostAction.FindAmong | src/main/java/com/dji/sample/manage/model/enums/WaylineRcLostActionEnum.java:24 | the filter returns a constant with the given ordinal, or nothing when none has it |
| RcLostAction.Find | src/main/java/com/dji/sample/manage/model/enums/WaylineRcLostActionEnum.java:22-25 | `find(val)` succeeds exactly for 0 and 1, and returns the constant whose value is `val` |
| RcLostAction.FindGetVal | src/main/java/com/dji/sample/manage/model/enums/WaylineRcLostActionEnum.java:17-25 | `find(e.getVal())` is `e` |
| RcLostAction.GetValFind | src/main/java/com/dji/sample/manage/model/enums/WaylineRcLostActionEnum.java:15-25 | `find(v).getVal()` is `v` for 0 and 1; `CONTINUE_WAYLINE` is 0 and `EXECUTE_RC_LOST_ACTION` is 1 |
| FlightAuthorizationTitle.Of | src/main/java/com/dji/sample/flightauthorization/domain/value/Title.java:21-33 | null throws a `NullPointerException`; otherwise the title is built exactly when the value is valid and holds the value, and `require` fails otherwise |
| FlightAuthorizationTitle.IsValidBounds | src/main/java/com/dji/sample/flightauthorization/domain/value/Title.java:14-33 | more than 255 characters is never valid; at most 127 always is; for text in the Basic Multilingual Plane, valid means at most 255 characters |
| FlightAuthorizationTitle.OfRoundTrip | src/main/java/com/dji/sample/flightauthorization/domain/value/Title.java:16-38 | for a valid value, `of(v).getValue()` and `of(v).toString()` are `v` |
| FlightAuthorizationTitle.OfEquality | src/main/java/com/dji/sample/flightauthorization/domain/value/Title.java:12-29 | two titles from `of` are equal exactly when their values are |
| FlightAuthorizationTitle.SupplementaryCharactersCountTwice | src/main/java/com/dji/sample/flightauthorization/domain/value/Title.java:31-33 | a value made only of characters outside the Basic Multilingual Plane is accepted exactly when it has at most 127 of them |
| FlightAuthorizationTitle.SupplementaryLength | src/main/java/com/dji/sample/flightauthorization/domain/value/Title.java:32 | a string made only of such characters has `length()` twice its character count |
| KmzDocument.AllPlacemarks | src/main/java/com/dji/sample/wayline/domain/service/WaylineService.java:93 | the placemark query returns every placemark of every folder, and nothing that is not in a folder's list |
| SortedKeySets.MinimumExists | src/main/java/com/dji/sample/wayline/domain/service/WaylineService.java:118-129 | a non-empty key set has a least key |
| SortedKeySets.SortedKeys | src/main/java/com/dji/sample/wayline/domain/service/WaylineService.java:118-129 | `TreeMap` key order: every key exactly once, strictly ascending |
| FlightRoute.ReadPoint | src/main/java/com/dji/sample/wayline/domain/service/WaylineService.java:120-127 | a point read from a placemark has that placemark's height |
| FlightRoute.ReadPointFields | src/main/java/com/dji/sample/wayline/domain/service/WaylineService.java:120-127 | coordinates text `lon,lat[,...]` gives the point (parsed lon, parsed lat, height) |
| FlightRoute.IndicesOfSnoc | src/main/java/com/dji/sample/wayline/domain/service/WaylineService.java:126-127 | adding a placemark adds its index to the index set |
| FlightRoute.PointsMap | src/main/java/com/dji/sample/wayline/domain/service/WaylineService.java:118-128 | after the loop, the map's keys are exactly the placemarks' indices |
| FlightRoute.LastPosition | src/main/java/com/dji/sample/wayline/domain/service/WaylineService.java:127 | the last placemark carrying a given index: it carries the index and no later one does |
| FlightRoute.ValuesInKeyOrder | src/main/java/com/dji/sample/wayline/domain/service/WaylineService.java:129 | `values()` has one element per key |
| FlightRoute.RouteIndices | src/main/java/com/dji/sample/wayline/domain/service/WaylineService.java:118-129 | the indices behind the route are the distinct placemark indices, strictly ascending |
| FlightRoute.PointsMapFailsFrom | src/main/java/com/dji/sample/wayline/domain/service/WaylineService.java:119-128 | once a placemark throws, the read ends with that exception |
| FlightRoute.FirstFailure | src/main/java/com/dji/sample/wayline/domain/service/WaylineService.java:119-128 | the first placemark that yields no point: every earlier one yields a point |
| FlightRoute.RouteOutcome | src/main/java/com/dji/sample/wayline/domain/service/WaylineService.java:117-130 | the route is built when every placemark yields a point; otherwise the exception is that of the first failing placemark |
| FlightRoute.RouteSucceedsIff | src/main/java/com/dji/sample/wayline/domain/service/WaylineService.java:117-130 | all or nothing: the route is built exactly when every placemark yields a point |
| FlightRoute.PointUnderIndex | src/main/java/com/dji/sample/wayline/domain/service/WaylineService.java:127 | the point kept under an index is that of the last placemark with that index |
| FlightRoute.RouteShape | src/main/java/com/dji/sample/wayline/domain/service/WaylineService.java:117-130 | one point per distinct index, in ascending index order, each the last one given for its index |
| FlightRoute.SameMembers | src/main/java/com/dji/sample/wayline/domain/service/WaylineService.java:119 | rearranged placemark lists hold the same placemarks |
| FlightRoute.RouteIgnoresDocumentOrder | src/main/java/com/dji/sample/wayline/domain/service/WaylineService.java:117-130 | with distinct indices, any rearrangement of the placemarks gives the same outcome and the same route |
| FlightRoute.AllPointsReadTransfers | src/main/java/com/dji/sample/wayline/domain/service/WaylineService.java:119-127 | if every placemark of one list yields a point, so does every placemark of a list with the same members |
| FlightRoute.SameMaps | src/main/java/com/dji/sample/wayline/domain/service/WaylineService.java:118-128 | with distinct indices, lists with the same members fill the same map |
| FlightRoute.SameIndices | src/main/java/com/dji/sample/wayline/domain/service/WaylineService.java:126 | lists with the same members have the same indices |
| FlightRoute.SamePointUnderIndex | src/main/java/com/dji/sample/wayline/domain/service/WaylineService.java:127 | with distinct indices, both maps hold the same point under an index |
| FlightRoute.ReadFlightRoute | src/main/java/com/dji/sample/wayline/domain/service/WaylineService.java:117-130 | the loop returns exactly the route, or the exception, of the specification `Route` |
| WaylineService.ZipInputStream.constructor | src/main/java/com/dji/sample/wayline/domain/service/WaylineService.java:59 | a new stream stands before the first entry |
| WaylineService.ZipInputStream.GetNextEntry | src/main/java/com/dji/sample/wayline/domain/service/WaylineService.java:106-112 | the next entry and one step forward; at the end, null, or an `IOException` for a truncated archive |
| WaylineService.FirstEntryNamed | src/main/java/com/dji/sample/wayline/domain/service/WaylineService.java:107-111 | the first entry at or after a position with the given name, or none when no later entry has it |
| WaylineService.FirstEntryAt | src/main/java/com/dji/sample/wayline/domain/service/WaylineService.java:107-111 | an entry with the name and none before it is the one found |
| WaylineService.TemplateEntry | src/main/java/com/dji/sample/wayline/domain/service/WaylineService.java:105-115 | the matching entry; failure exactly when no entry matches, and then a `NullPointerException`, or an `IOException` for a truncated archive |
| WaylineService.FindWaylineTemplateFile | src/main/java/com/dji/sample/wayline/domain/service/WaylineService.java:105-115 | the loop returns the first template entry and leaves the stream just past it, or fails as `TemplateEntry` says with the stream exhausted; the `orElseThrow` branch is dead, so it never throws `FileNotFoundException` |
| WaylineService.ResolveHeader | src/main/java/com/dji/sample/wayline/domain/service/WaylineService.java:64-91 | the header is built exactly when the drone-info, payload-info and first folder nodes are present, their codes are in the tables and the template type is waypoint; its types are then those lookups |
| WaylineService.ReadWaylineInputStream | src/main/java/com/dji/sample/wayline/domain/service/WaylineService.java:58-103 | the method returns exactly the specification `ReadWayline`: the wayline; null on an `IOException` (including `FileNotFoundException` and one on close) or a `DocumentException`; or the runtime exception; the stream is left just past the template entry, or at the end when there is none |
| WaylineService.WaylineOf | src/main/java/com/dji/sample/wayline/domain/service/WaylineService.java:48-56 | a failing read propagates; a successful read becomes a `WaylineReadException` when closing the source throws |
| WaylineService.GetWayline | src/main/java/com/dji/sample/wayline/domain/service/WaylineService.java:48-56 | the method returns exactly `WaylineOf` |
| WaylineService.RouteFailureIsUnchecked | src/main/java/com/dji/sample/wayline/domain/service/WaylineService.java:99-125 | a route failure is a null dereference, an index or a number format exception, so it is never caught |
| WaylineService.MissingTemplate | src/main/java/com/dji/sample/wayline/domain/service/WaylineService.java:105-115 | without a template entry, `getWayline` throws a `NullPointerException`; for a truncated archive the read returns null |
| WaylineService.FileNotFoundUnreachable | src/main/java/com/dji/sample/wayline/domain/service/WaylineService.java:114 | the body of the read never throws `FileNotFoundException`, and `getWayline` never ends in one |
| WaylineService.FirstTemplateEntryIsRead | src/main/java/com/dji/sample/wayline/domain/service/WaylineService.java:60-115 | only the first template entry is read: the result equals that of an archive holding that entry alone |
| WaylineService.UnsupportedTemplateRejected | src/main/java/com/dji/sample/wayline/domain/service/WaylineService.java:83-91 | an unknown template type, or any one but waypoint, ends the read with "Template Type not supported." |
| WaylineService.PlacemarkFailureAbortsRead | src/main/java/com/dji/sample/wayline/domain/service/WaylineService.java:93-128 | one placemark without a point makes the whole read fail, with neither a wayline nor null |
| WaylineService.WellFormedArchiveReads | src/main/java/com/dji/sample/wayline/domain/service/WaylineService.java:58-98 | a template entry that parses, a resolvable header, placemarks that all yield a point and a stream that closes give the wayline of the route and the resolved types |
| WaylineService.SuccessfulRead | src/main/java/com/dji/sample/wayline/domain/service/WaylineService.java:58-103 | a returned wayline means: the template parsed; its header resolved to the wayline's types, with waypoint as the template type; every placemark of every folder yielded a point; and the path is one point per distinct index, ascending, each the last given for its index |
| WaylineService.EveryFolderContributes | src/main/java/com/dji/sample/wayline/domain/service/WaylineService.java:93 | a placemark in any folder, not only the first, contributes its index |
| RedisOps.RedisStore.constructor | src/main/java/com/dji/sample/wayline/service/impl/WaylineRedisServiceImpl.java:25 | the store starts empty |
| RedisOps.RedisStore.Get | src/main/java/com/dji/sample/wayline/service/impl/WaylineRedisServiceImpl.java:33-84 | definition, no property of its own: a stored key gives its value, an absent key null; the setters state get-after-set |
| RedisOps.RedisStore.SetWithExpire | src/main/java/com/dji/sample/wayline/service/impl/WaylineRedisServiceImpl.java:29-78 | the key is overwritten with the value and TTL; nothing else changes |
| RedisOps.RedisStore.Del | src/main/java/com/dji/sample/wayline/service/impl/WaylineRedisServiceImpl.java:38-89 | the key is removed; the result says whether it was there |
| RedisOps.RedisStore.ZAdd | src/main/java/com/dji/sample/wayline/service/impl/WaylineRedisServiceImpl.java:97-99 | the member gets the score in the named set; the result says whether it is new |
| RedisOps.RedisStore.ZGetMin | src/main/java/com/dji/sample/wayline/service/impl/WaylineRedisServiceImpl.java:104 | a member of least score, or null exactly when the set is empty |
| RedisOps.RedisStore.ZScore | src/main/java/com/dji/sample/wayline/service/impl/WaylineRedisServiceImpl.java:110 | definition, no property of its own: the member's score, or null when it is not in the set |
| RedisOps.RedisStore.ZRemove | src/main/java/com/dji/sample/wayline/service/impl/WaylineRedisServiceImpl.java:115 | only the named member leaves the set; the result says whether it was there |
| WaylineRedis.ConditionalTtl | src/main/java/com/dji/sample/wayline/service/impl/WaylineRedisServiceImpl.java:78 | the TTL is never negative. It is the whole seconds since an end time in the past, rounded down, or until an end time in the future, rounded up |
| WaylineRedis.ConditionalTtlZero | src/main/java/com/dji/sample/wayline/service/impl/WaylineRedisServiceImpl.java:78 | the TTL is zero exactly when the end time equals now or lies less than a second before it; an end time in the future gives at least one second |
| WaylineRedis.PreparedMember | src/main/java/com/dji/sample/wayline/service/impl/WaylineRedisServiceImpl.java:96-98 | the member is as long as its three parts plus two delimiters |
| WaylineRedis.MemberFields | src/main/java/com/dji/sample/wayline/service/impl/WaylineRedisServiceImpl.java:96-98 | with a one-character delimiter that no part contains, its delimiter-free fields are exactly the workspace id, dock serial and job id (this is `Fields`, not Java's `split`, which would drop an empty trailing job id) |
| WaylineRedis.MemberInjective | src/main/java/com/dji/sample/wayline/service/impl/WaylineRedisServiceImpl.java:96-98 | under that condition, equal members mean equal workspace id, dock serial and job id |
| WaylineRedis.AmbiguousMember | src/main/java/com/dji/sample/wayline/service/impl/WaylineRedisServiceImpl.java:96-98 | without it, a workspace id holding the delimiter gives the same member as a different workspace and dock |
| WaylineRedis.SlotKeyInjective | src/main/java/com/dji/sample/wayline/service/impl/WaylineRedisServiceImpl.java:29-88 | under one prefix, different docks or job ids get different keys |
| WaylineRedis.FamiliesDisjoint | src/main/java/com/dji/sample/wayline/service/impl/WaylineRedisServiceImpl.java:29-88 | keys of two families collide only if one prefix is a prefix of the other |
| WaylineRedis.WaylineRedisServiceImpl.constructor | src/main/java/com/dji/sample/wayline/service/impl/WaylineRedisServiceImpl.java:24-25 | the service is bound to its store, constants and zone conversion |
| WaylineRedis.WaylineRedisServiceImpl.GetRunningWaylineJob | src/main/java/com/dji/sample/wayline/service/impl/WaylineRedisServiceImpl.java:33-35 | empty exactly when the slot is unset; the event exactly when one is stored; otherwise a cast failure |
| WaylineRedis.WaylineRedisServiceImpl.GetJobId | src/main/java/com/dji/sample/wayline/service/impl/WaylineRedisServiceImpl.java:48-65 | definition of the `(String)` cast, no property of its own: null when the key is unset, the id when one is stored, otherwise a cast failure |
| WaylineRedis.WaylineRedisServiceImpl.GetPausedWaylineJobId | src/main/java/com/dji/sample/wayline/service/impl/WaylineRedisServiceImpl.java:47-50 | the paused job id exactly when one is stored for the dock |
| WaylineRedis.WaylineRedisServiceImpl.GetBlockedWaylineJobId | src/main/java/com/dji/sample/wayline/service/impl/WaylineRedisServiceImpl.java:62-65 | the blocked job id exactly when one is stored for the dock |
| WaylineRedis.WaylineRedisServiceImpl.GetConditionalWaylineJob | src/main/java/com/dji/sample/wayline/service/impl/WaylineRedisServiceImpl.java:81-84 | empty exactly when unset; the job exactly when one is stored; otherwise a cast failure |
| WaylineRedis.WaylineRedisServiceImpl.SetRunningWaylineJob | src/main/java/com/dji/sample/wayline/service/impl/WaylineRedisServiceImpl.java:27-35 | the slot holds the event with TTL `DRC_MODE_ALIVE_SECOND`, so the next get returns it; no other dock's running job changes |
| WaylineRedis.WaylineRedisServiceImpl.DelRunningWaylineJob | src/main/java/com/dji/sample/wayline/service/impl/WaylineRedisServiceImpl.java:37-40 | true exactly when the slot was set; afterwards the get is empty |
| WaylineRedis.WaylineRedisServiceImpl.SetPausedWaylineJob | src/main/java/com/dji/sample/wayline/service/impl/WaylineRedisServiceImpl.java:42-50 | the slot holds the job id with TTL `DRC_MODE_ALIVE_SECOND`; no other dock's paused job changes |
| WaylineRedis.WaylineRedisServiceImpl.DelPausedWaylineJob | src/main/java/com/dji/sample/wayline/service/impl/WaylineRedisServiceImpl.java:52-55 | true exactly when the slot was set; afterwards the get is null |
| WaylineRedis.WaylineRedisServiceImpl.SetBlockedWaylineJob | src/main/java/com/dji/sample/wayline/service/impl/WaylineRedisServiceImpl.java:57-65 | the slot holds the job id with TTL `WAYLINE_JOB_BLOCK_TIME`; no other dock's blocked job changes |
| WaylineRedis.WaylineRedisServiceImpl.DelBlockedWaylineJobId | src/main/java/com/dji/sample/wayline/service/impl/WaylineRedisServiceImpl.java:67-70 | true exactly when the slot was set; afterwards the get is null |
| WaylineRedis.WaylineRedisServiceImpl.SetConditionalWaylineJob | src/main/java/com/dji/sample/wayline/service/impl/WaylineRedisServiceImpl.java:72-79 | a job id that is null or blank throws and nothing is written; a null end time throws before the write; otherwise the job is stored under its id with TTL `ConditionalTtl` |
| WaylineRedis.WaylineRedisServiceImpl.DelConditionalWaylineJob | src/main/java/com/dji/sample/wayline/service/impl/WaylineRedisServiceImpl.java:86-89 | true exactly when the job was stored; afterwards the get is empty |
| WaylineRedis.WaylineRedisServiceImpl.AddPreparedWaylineJob | src/main/java/com/dji/sample/wayline/service/impl/WaylineRedisServiceImpl.java:91-100 | a null begin time gives false and writes nothing; otherwise the member gets the begin time in epoch milliseconds as its score, and the result says whether it is new |
| WaylineRedis.WaylineRedisServiceImpl.GetNearestPreparedWaylineJob | src/main/java/com/dji/sample/wayline/service/impl/WaylineRedisServiceImpl.java:102-106 | the key of a prepared job with the least score; empty exactly when none is prepared |
| WaylineRedis.WaylineRedisServiceImpl.GetPreparedWaylineJobTime | src/main/java/com/dji/sample/wayline/service/impl/WaylineRedisServiceImpl.java:108-111 | the member's score, or null exactly when it is not prepared |
| WaylineRedis.WaylineRedisServiceImpl.RemovePreparedWaylineJob | src/main/java/com/dji/sample/wayline/service/impl/WaylineRedisServiceImpl.java:113-116 | only the named member is removed, its time reads null afterwards, and the result says whether it was prepared |

## Left out

- The ZIP inflater and the XML parser are left out. The model starts from the entries in stream order and, for each entry, either the queried document nodes or a `DocumentException`.
- Placemarks outside any `Folder` element are not represented. The document-wide query would also return them.
- Nested `Folder` elements are not represented: each folder lists its own placemark children, and the document's folders are taken to be siblings, as in a WPML template. With nesting, the document-wide query would still return each placemark once in document order, which concatenating per-folder lists does not give.
- `numberValueOf(...)` of a missing index or height node is read as whatever number the parser yields. The model takes the index and height as given.
- Java `double` values are opaque bit patterns. `Double.parseDouble` is a parameter, so its accepted syntax is left out.
- JTS `createLineString` rejects a path of exactly one point. The model returns the coordinate sequence and does not model JTS's point-count rules.
- The lookups `DroneType.find`, `PayloadType.find` and `PayloadSubType.find` are partial maps, and an unknown code is an escaping failure. Those classes are not part of this model, so their actual failure behaviour is not captured.
- `getObject` of the file service and its `EntityNotFoundException` are left out. `getWayline` starts from the archive that service returns.
- `ZipInputStream.close` also closes the source stream. The model treats the ZIP close failure and the source close failure as independent inputs.
- Logging (`log.error`) is left out.
- `WaylineReadException` is not part of this model. The model takes it to be neither an `IOException` nor a `DocumentException`. If it were an `IOException`, the catch in `readWaylineInputStream` would turn "Template Type not supported." into null. `UnsupportedTemplateRejected`, `PlacemarkFailureAbortsRead` and `WaylineOf` rest on this.
- A Java `String` can hold a lone surrogate, which `length()` counts as one unit. A Dafny `string` cannot hold one, so `Title` values with lone surrogates are not represented.
- Redis runs on a separate server; the model is an in-memory store. TTLs are recorded with each entry, but keys do not expire over time.
- Sorted-set scores are doubles in Redis and integers here.
- The key/value space and the sorted-set space are separate maps. Redis would refuse a string operation on a key that holds a sorted set.
- `RedisOpsUtils` is not part of this model. These properties are assumptions of the model, not proved facts about it:
  - `zAdd` reports "member is new";
  - `del` and `zRemove` report "was present";
  - `zGetMin` of an empty set is null.
- What Redis does with a TTL of zero is left out. `setConditionalWaylineJob` produces one when the end time is at most one second before now: equal to now, or less than a second in the past (`ConditionalTtlZero`).
- The closed state of the ZIP stream after `readWaylineInputStream` is not modelled. Nothing reads the stream after the try-with-resources block, and whether closing throws is the archive's `closeFails` flag.
- Among members with equal least score, which one `zGetMin` returns is left open.
- `RedisConst` values are symbolic. Whether the four prefixes are prefix-free is left open; `FamiliesDisjoint` states what depends on it.
- WaylineRedis.WaylineRedisServiceImpl.SetRunningWaylineJob: the dock serial is taken as non-null. Java would turn a null one into the key suffix "null". The same holds for the other per-dock and per-job-id operations.
- `EventsReceiver` is an opaque value, and `WaylineJobDTO` keeps only the five fields the store reads.
- `WaylineJobKey`'s own parsing of the member string is not part of this model. The key holds the member text.
- `beginTime.atZone(ZoneId.systemDefault()).toInstant().toEpochMilli()` is a parameter of the service.
- `LocalDateTime.now()` is a parameter.
- Concurrency and the atomicity of the store are left out.
